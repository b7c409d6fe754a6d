/** The JavaScript string operations the sources use. */
module JsText {
  /** The characters String.prototype.trim and the regular-expression class \s take for space. */
  predicate IsSpace(c: char) {
    || c == ' ' || c == '\t' || c == '\n' || c == '\r' || c == '\U{000B}' || c == '\U{000C}'
    || c == '\U{00A0}' || c == '\U{1680}' || '\U{2000}' <= c <= '\U{200A}' || c == '\U{2028}' || c == '\U{2029}'
    || c == '\U{202F}' || c == '\U{205F}' || c == '\U{3000}' || c == '\U{FEFF}'
  }

  /** By code point: the white space and line terminators of ECMAScript. */
  lemma SpacesByCode(c: char)
    ensures IsSpace(c) <==> var n := c as int;
                            || 9 <= n <= 13 || n == 32 || n == 160 || n == 5760 || 8192 <= n <= 8202 || n == 8232
                            || n == 8233 || n == 8239 || n == 8287 || n == 12288 || n == 65279
  {
  }

  /** The `length` of a JavaScript string counts UTF-16 units: two for a character above U+FFFF. */
  function Utf16Length(s: string): (r: nat)
    ensures |s| <= r <= 2 * |s|
  {
    if s == [] then 0 else Utf16Length(s[..|s| - 1]) + if s[|s| - 1] as int > 0xFFFF then 2 else 1
  }

  lemma {:induction false} Utf16Concat(a: string, b: string)
    ensures Utf16Length(a + b) == Utf16Length(a) + Utf16Length(b)
  {
    if b == [] {
      assert a + b == a;
    } else {
      assert (a + b)[..|a + b| - 1] == a + b[..|b| - 1];
      Utf16Concat(a, b[..|b| - 1]);
    }
  }

  lemma Utf16OfOne(c: char)
    ensures Utf16Length([c]) == if c as int >= 65536 then 2 else 1
  {
    assert [c][..0] == [];
    assert Utf16Length([c][..0]) == 0;
  }

  function TrimLeft(s: string): (r: string)
    ensures r == [] || !IsSpace(r[0])
  {
    if s == [] || !IsSpace(s[0]) then s else TrimLeft(s[1..])
  }

  function TrimRight(s: string): (r: string)
    ensures s != [] && !IsSpace(s[0]) ==> r != [] && r[0] == s[0]
  {
    if s == [] || !IsSpace(s[|s| - 1]) then s else TrimRight(s[..|s| - 1])
  }

  function Trim(s: string): (r: string)
    ensures r == [] || !IsSpace(r[0])
  {
    if TrimLeft(s) == [] then [] else TrimRight(TrimLeft(s))
  }

  /** Trimming takes off blanks at both ends, and all of them. */
  lemma TrimMeaning(s: string) returns (left: string, right: string)
    ensures s == left + Trim(s) + right
    ensures forall k :: 0 <= k < |left| ==> IsSpace(left[k])
    ensures forall k :: 0 <= k < |right| ==> IsSpace(right[k])
    ensures Trim(s) != [] ==> !IsSpace(Trim(s)[0]) && !IsSpace(Trim(s)[|Trim(s)| - 1])
  {
    left := TrimLeftMeaning(s);
    right := TrimRightMeaning(TrimLeft(s));
    if TrimLeft(s) == [] { right := []; }
    assert left + TrimLeft(s) == s;
  }

  lemma {:induction false} TrimLeftMeaning(s: string) returns (left: string)
    ensures s == left + TrimLeft(s) && forall k :: 0 <= k < |left| ==> IsSpace(left[k])
  {
    left := [];
    if s != [] && IsSpace(s[0]) {
      var rest := TrimLeftMeaning(s[1..]);
      left := [s[0]] + rest;
    }
  }

  lemma {:induction false} TrimRightMeaning(s: string) returns (right: string)
    ensures s == TrimRight(s) + right && forall k :: 0 <= k < |right| ==> IsSpace(right[k])
    ensures TrimRight(s) != [] ==> !IsSpace(TrimRight(s)[|TrimRight(s)| - 1])
  {
    right := [];
    if s != [] && IsSpace(s[|s| - 1]) {
      var rest := TrimRightMeaning(s[..|s| - 1]);
      right := rest + [s[|s| - 1]];
    }
  }

  /** String.prototype.split with a one-character separator. */
  function Split(s: string, separator: char): (r: seq<string>)
    ensures r != []
    ensures separator !in s ==> r == [s]
  {
    if s == [] then [[]]
    else
      var rest := Split(s[1..], separator);
      assert [s[0]] + s[1..] == s;
      if s[0] == separator then [[]] + rest else [[s[0]] + rest[0]] + rest[1..]
  }

  function LowerCase(s: string): (r: string)
    ensures |r| == |s|
  {
    seq(|s|, k requires 0 <= k < |s| => if 'A' <= s[k] <= 'Z' then s[k] - 'A' + 'a' else s[k])
  }

  lemma {:induction false} SplitFirst(a: string, separator: char, rest: string)
    requires separator !in a
    ensures Split(a + [separator] + rest, separator)[0] == a
  {
    var s := a + [separator] + rest;
    if a != [] {
      assert s[1..] == a[1..] + [separator] + rest;
      SplitFirst(a[1..], separator, rest);
    }
  }

  lemma {:induction false} SplitCons(a: string, separator: char, rest: string)
    requires separator !in a
    ensures Split(a + [separator] + rest, separator) == [a] + Split(rest, separator)
  {
    var s := a + [separator] + rest;
    if a == [] {
      assert s[0] == separator && s[1..] == rest;
    } else {
      assert s[0] == a[0] && s[1..] == a[1..] + [separator] + rest;
      SplitCons(a[1..], separator, rest);
      var tail := Split(s[1..], separator);
      assert tail[0] == a[1..] && tail[1..] == Split(rest, separator);
      assert [a[0]] + a[1..] == a;
    }
  }
}
