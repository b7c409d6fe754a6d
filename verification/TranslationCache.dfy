/** The translation cache and its truncated key (types/i18n.ts).

    Texts are UTF-8 byte sequences. A message is an object literal with its locales in the order
    en, tr, de, which is the order JSON.stringify writes them in. */
module TranslationCache {
  import opened Optional

  type Byte = b: int | 0 <= b < 256
  type Text = seq<Byte>

  datatype Locale = En | Tr | De
  datatype Message = Message(en: Text, tr: Text, de: Text)

  const MAX_ENTRIES: nat := 500

  // ---------------------------------------------------------------- JSON and base64

  function Hex(n: int): Byte
    requires 0 <= n < 16
  {
    if n < 10 then 48 + n else 87 + n
  }

  function EscapeByte(b: Byte): (r: Text)
    ensures |r| >= 1
  {
    if b == 34 || b == 92 then [92, b]
    else if b == 8 then [92, 98]
    else if b == 9 then [92, 116]
    else if b == 10 then [92, 110]
    else if b == 12 then [92, 102]
    else if b == 13 then [92, 114]
    else if b < 32 then [92, 117, 48, 48, Hex(b / 16), Hex(b % 16)]
    else [b]
  }

  function Escape(t: Text): (r: Text) {
    if t == [] then [] else EscapeByte(t[0]) + Escape(t[1..])
  }

  // {"en":"   ","tr":"   ","de":"   "}
  const OPENING: Text := [123, 34, 101, 110, 34, 58, 34]
  const TO_TR: Text := [34, 44, 34, 116, 114, 34, 58, 34]
  const TO_DE: Text := [34, 44, 34, 100, 101, 34, 58, 34]
  const CLOSING: Text := [34, 125]

  function Json(m: Message): (r: Text)
    ensures |r| >= 25
  {
    OPENING + Escape(m.en) + TO_TR + Escape(m.tr) + TO_DE + Escape(m.de) + CLOSING
  }

  /** The base64 alphabet of RFC 4648, section 4. */
  function Symbol(n: int): (c: char)
    requires 0 <= n < 64
    ensures c != '='
  {
    if n < 26 then 'A' + n as char
    else if n < 52 then 'a' + (n - 26) as char
    else if n < 62 then '0' + (n - 52) as char
    else if n == 62 then '+' else '/'
  }

  function Quad(a: Byte, b: Byte, c: Byte): (r: string)
    ensures |r| == 4
  {
    [Symbol(a / 4), Symbol(a % 4 * 16 + b / 16), Symbol(b % 16 * 4 + c / 64), Symbol(c % 64)]
  }

  function Base64(t: Text): (r: string)
    ensures |r| == (|t| + 2) / 3 * 4
  {
    if t == [] then []
    else if |t| == 1 then Quad(t[0], 0, 0)[..2] + "=="
    else if |t| == 2 then Quad(t[0], t[1], 0)[..3] + "="
    else Quad(t[0], t[1], t[2]) + Base64(t[3..])
  }

  function LocaleName(l: Locale): (r: string)
    ensures |r| == 2
  {
    match l case En => "en" case Tr => "tr" case De => "de"
  }

  function Key(m: Message, l: Locale): string {
    "i18n:" + Base64(Json(m))[..16] + ":" + LocaleName(l)
  }

  lemma SymbolInjective(m: int, n: int)
    requires 0 <= m < 64 && 0 <= n < 64
    ensures Symbol(m) == Symbol(n) ==> m == n
  {
  }

  lemma DigitsInjective(x: int, y: int, x': int, y': int, base: int)
    requires base == 16 || base == 4
    requires 0 <= y < base && 0 <= y' < base && x * base + y == x' * base + y'
    ensures x == x' && y == y'
  {
  }

  lemma QuadInjective(q: string, a: Byte, b: Byte, c: Byte, r: string, a': Byte, b': Byte, c': Byte)
    requires q == Quad(a, b, c) && r == Quad(a', b', c') && q == r
    ensures a == a' && b == b' && c == c'
  {
    assert q[0] == r[0] && q[1] == r[1] && q[2] == r[2] && q[3] == r[3];
    SymbolInjective(a / 4, a' / 4);
    SymbolInjective(a % 4 * 16 + b / 16, a' % 4 * 16 + b' / 16);
    SymbolInjective(b % 16 * 4 + c / 64, b' % 16 * 4 + c' / 64);
    SymbolInjective(c % 64, c' % 64);
    DigitsInjective(a % 4, b / 16, a' % 4, b' / 16, 16);
    DigitsInjective(b % 16, c / 64, b' % 16, c' / 64, 4);
  }

  /** Whole groups of three bytes are encoded independently of what follows them. */
  lemma {:induction false} Base64Prefix(t: Text, groups: nat)
    requires 3 * groups <= |t|
    ensures Base64(t)[..4 * groups] == Base64(t[..3 * groups])
  {
    if groups > 0 {
      Base64Prefix(t[3..], groups - 1);
      assert t[..3 * groups][3..] == t[3..][..3 * (groups - 1)];
      assert Base64(t)[..4 * groups] == Quad(t[0], t[1], t[2]) + Base64(t[3..])[..4 * (groups - 1)];
    }
  }

  lemma {:induction false} Base64Injective(t: Text, u: Text, groups: nat)
    requires |t| == |u| == 3 * groups && Base64(t) == Base64(u)
    ensures t == u
  {
    if groups > 0 {
      FirstGroup(t, u);
      Base64Injective(t[3..], u[3..], groups - 1);
      Rejoin(t, u);
    }
  }

  lemma FirstGroup(t: Text, u: Text)
    requires |t| == |u| >= 3 && Base64(t) == Base64(u)
    ensures t[0] == u[0] && t[1] == u[1] && t[2] == u[2]
    ensures Base64(t[3..]) == Base64(u[3..])
  {
    var q, r := Quad(t[0], t[1], t[2]), Quad(u[0], u[1], u[2]);
    HeadAndTail(q, Base64(t[3..]), r, Base64(u[3..]));
    QuadInjective(q, t[0], t[1], t[2], r, u[0], u[1], u[2]);
  }

  lemma Rejoin(t: Text, u: Text)
    requires |t| == |u| >= 3
    requires t[0] == u[0] && t[1] == u[1] && t[2] == u[2] && t[3..] == u[3..]
    ensures t == u
  {
    forall i | 3 <= i < |t| ensures t[i] == u[i] {
      assert t[i] == t[3..][i - 3] && u[i] == u[3..][i - 3];
    }
  }

  lemma HeadAndTail(q: string, x: string, r: string, y: string)
    requires |q| == |r| && q + x == r + y
    ensures q == r && x == y
  {
    assert (q + x)[..|q|] == q && (r + y)[..|q|] == r && (q + x)[|q|..] == x && (r + y)[|q|..] == y;
  }

  lemma KeyParts(h: string, x: string, g: string, y: string)
    requires |h| == |g| == 16 && |x| == |y|
    ensures "i18n:" + h + ":" + x == "i18n:" + g + ":" + y <==> h == g && x == y
  {
    var k, l := "i18n:" + h + ":" + x, "i18n:" + g + ":" + y;
    assert k[5..21] == h && l[5..21] == g && k[22..] == x && l[22..] == y;
  }

  lemma HashesEqualIff(t: Text, u: Text)
    requires |t| >= 12 && |u| >= 12
    ensures Base64(t)[..16] == Base64(u)[..16] <==> t[..12] == u[..12]
  {
    Base64Prefix(t, 4);
    Base64Prefix(u, 4);
    if Base64(t)[..16] == Base64(u)[..16] {
      Base64Injective(t[..12], u[..12], 4);
    }
  }

  /** The key keeps exactly the locale and the first twelve bytes of the JSON. */
  lemma KeysEqualIff(m: Message, l: Locale, n: Message, k: Locale)
    ensures Key(m, l) == Key(n, k) <==> l == k && Json(m)[..12] == Json(n)[..12]
  {
    HashesEqualIff(Json(m), Json(n));
    KeyParts(Base64(Json(m))[..16], LocaleName(l), Base64(Json(n))[..16], LocaleName(k));
  }

  predicate Plain(t: Text) {
    forall i :: 0 <= i < |t| ==> t[i] >= 32 && t[i] != 34 && t[i] != 92
  }

  lemma {:induction false} PlainIsNotEscaped(t: Text, n: nat)
    requires n <= |t| && Plain(t[..n])
    ensures n <= |Escape(t)| && Escape(t)[..n] == t[..n]
  {
    if n > 0 {
      assert t[..n][0] == t[0] && t[..n][1..] == t[1..][..n - 1];
      PlainIsNotEscaped(t[1..], n - 1);
      assert Escape(t) == [t[0]] + Escape(t[1..]);
    }
  }

  lemma JsonHead(m: Message)
    requires |m.en| >= 5 && Plain(m.en[..5])
    ensures Json(m)[..12] == OPENING + m.en[..5]
  {
    PlainIsNotEscaped(m.en, 5);
    assert Json(m)[..12] == OPENING + Escape(m.en)[..5];
  }

  /** Seven of the twelve bytes are `{"en":"`: messages whose English texts share their first five
      bytes share every key, whatever the rest of them says. */
  lemma FiveBytesCollide(m: Message, n: Message, l: Locale)
    requires |m.en| >= 5 && |n.en| >= 5 && m.en[..5] == n.en[..5] && Plain(m.en[..5])
    ensures Key(m, l) == Key(n, l)
  {
    JsonHead(m);
    JsonHead(n);
    KeysEqualIff(m, l, n, l);
  }

  // ---------------------------------------------------------------- the key against its standards

  /** The value of a base64 symbol (RFC 4648, section 4, table 1). */
  function SymbolValue(c: char): int {
    if 'A' <= c <= 'Z' then c as int - 65
    else if 'a' <= c <= 'z' then c as int - 97 + 26
    else if '0' <= c <= '9' then c as int - 48 + 52
    else if c == '+' then 62
    else if c == '/' then 63
    else -1
  }

  lemma SymbolIsItsValue(n: int)
    requires 0 <= n < 64
    ensures SymbolValue(Symbol(n)) == n
  {
  }

  /** Each group of four symbols holds the bits of three bytes, high bits first. */
  lemma {:induction false} Base64Group(t: Text, group: nat)
    requires 3 * group + 3 <= |t|
    ensures var s, k := Base64(t), 4 * group;
            && SymbolValue(s[k]) * 262144 + SymbolValue(s[k + 1]) * 4096 + SymbolValue(s[k + 2]) * 64 + SymbolValue(s[k + 3])
               == (t[3 * group] as int) * 65536 + (t[3 * group + 1] as int) * 256 + t[3 * group + 2] as int
            && forall i :: k <= i < k + 4 ==> SymbolValue(s[i]) >= 0
  {
    GroupSymbols(t, group);
    QuadBits(t[3 * group], t[3 * group + 1], t[3 * group + 2]);
  }

  lemma {:induction false} GroupSymbols(t: Text, group: nat)
    requires 3 * group + 3 <= |t|
    ensures Base64(t)[4 * group..4 * group + 4] == Quad(t[3 * group], t[3 * group + 1], t[3 * group + 2])
  {
    var q, rest := Quad(t[0], t[1], t[2]), Base64(t[3..]);
    assert Base64(t) == q + rest;
    if group == 0 {
      assert (q + rest)[..4] == q;
    } else {
      GroupSymbols(t[3..], group - 1);
      assert (q + rest)[4 * group..4 * group + 4] == rest[4 * group - 4..4 * group];
    }
  }

  lemma QuadBits(a: Byte, b: Byte, c: Byte)
    ensures var q := Quad(a, b, c);
            && SymbolValue(q[0]) * 262144 + SymbolValue(q[1]) * 4096 + SymbolValue(q[2]) * 64 + SymbolValue(q[3])
               == (a as int) * 65536 + (b as int) * 256 + c as int
            && forall i :: 0 <= i < 4 ==> SymbolValue(q[i]) >= 0
  {
    SymbolIsItsValue(a / 4);
    SymbolIsItsValue(a % 4 * 16 + b / 16);
    SymbolIsItsValue(b % 16 * 4 + c / 64);
    SymbolIsItsValue(c % 64);
  }

  /** Reading a JSON string literal's contents: the text and what follows the closing quote. */
  function ReadString(j: Text): Option<(Text, Text)> {
    if j == [] then None
    else if j[0] == 34 then Some(([], j[1..]))
    else if j[0] == 92 then
      if |j| >= 6 && j[1] == 117 then
        if j[2] == 48 && j[3] == 48 && HexValue(j[4]) >= 0 && HexValue(j[5]) >= 0
           && HexValue(j[4]) * 16 + HexValue(j[5]) < 32 then
          Prepend(HexValue(j[4]) * 16 + HexValue(j[5]), ReadString(j[6..]))
        else None
      else if |j| >= 2 && Unescaped(j[1]).Some? then Prepend(Unescaped(j[1]).value, ReadString(j[2..]))
      else None
    else if j[0] < 32 then None
    else Prepend(j[0], ReadString(j[1..]))
  }

  function Prepend(b: Byte, r: Option<(Text, Text)>): Option<(Text, Text)> {
    if r.Some? then Some(([b] + r.value.0, r.value.1)) else None
  }

  function HexValue(b: Byte): int {
    if 48 <= b <= 57 then b - 48 else if 97 <= b <= 102 then b - 87 else -1
  }

  /** The one-letter escapes of RFC 8259, section 7. */
  function Unescaped(b: Byte): Option<Byte> {
    if b == 34 || b == 92 || b == 47 then Some(b)
    else if b == 98 then Some(8)
    else if b == 102 then Some(12)
    else if b == 110 then Some(10)
    else if b == 114 then Some(13)
    else if b == 116 then Some(9)
    else None
  }

  lemma {:induction false} EscapeReadsBack(t: Text, rest: Text)
    ensures ReadString(Escape(t) + [34] + rest) == Some((t, rest))
  {
    if t == [] {
      assert Escape(t) + [34] + rest == [34] + rest;
      assert ([34] + rest)[1..] == rest;
    } else {
      var tail := Escape(t[1..]) + [34] + rest;
      assert Escape(t) + [34] + rest == EscapeByte(t[0]) + tail;
      EscapeReadsBack(t[1..], rest);
      ByteReadsBack(t[0], tail);
      assert [t[0]] + t[1..] == t;
    }
  }

  lemma ByteReadsBack(b: Byte, tail: Text)
    ensures ReadString(EscapeByte(b) + tail) == Prepend(b, ReadString(tail))
  {
    var e := EscapeByte(b);
    var j := e + tail;
    assert j[|e|..] == tail;
    assert j[0] == e[0];
  }

  /** A member: seven bytes that name it and open its string, the text, and what follows the string. */
  predicate Member(j: Text, opening: Text, t: Text, rest: Text) {
    |j| >= 7 && j[..7] == opening && ReadString(j[7..]) == Some((t, rest))
  }

  lemma MemberReadsBack(opening: Text, t: Text, rest: Text)
    requires |opening| == 7
    ensures Member(opening + (Escape(t) + [34] + rest), opening, t, rest)
  {
    var j := opening + (Escape(t) + [34] + rest);
    assert j[..7] == opening && j[7..] == Escape(t) + [34] + rest;
    EscapeReadsBack(t, rest);
  }

  /** The JSON of a message names its locales in order, and each text reads back from its literal:
      {"en":"..." and ,"tr":"..." and ,"de":"..." and a closing brace. */
  lemma JsonReadsBack(m: Message) returns (tr: Text, de: Text)
    ensures Member(Json(m), [123, 34, 101, 110, 34, 58, 34], m.en, tr)
    ensures Member(tr, [44, 34, 116, 114, 34, 58, 34], m.tr, de)
    ensures Member(de, [44, 34, 100, 101, 34, 58, 34], m.de, [125])
  {
    tr, de := MembersReadBack(m, [44, 34, 116, 114, 34, 58, 34], [44, 34, 100, 101, 34, 58, 34]);
  }

  lemma MembersReadBack(m: Message, toTr: Text, toDe: Text) returns (tr: Text, de: Text)
    requires |toTr| == |toDe| == 7 && [34] + toTr == TO_TR && [34] + toDe == TO_DE
    ensures Member(Json(m), OPENING, m.en, tr) && Member(tr, toTr, m.tr, de) && Member(de, toDe, m.de, [125])
  {
    de := toDe + (Escape(m.de) + [34] + [125]);
    tr := toTr + (Escape(m.tr) + [34] + de);
    MemberReadsBack(OPENING, m.en, tr);
    MemberReadsBack(toTr, m.tr, de);
    MemberReadsBack(toDe, m.de, [125]);
    JsonParts(Escape(m.en), Escape(m.tr), Escape(m.de), toTr, toDe);
  }

  lemma JsonParts(en: Text, tr: Text, de: Text, toTr: Text, toDe: Text)
    requires [34] + toTr == TO_TR && [34] + toDe == TO_DE
    ensures OPENING + en + TO_TR + tr + TO_DE + de + CLOSING
            == OPENING + (en + [34] + (toTr + (tr + [34] + (toDe + (de + [34] + [125])))))
  {
    var last := de + [34] + [125];
    assert de + CLOSING == last;
    var middle := tr + [34] + (toDe + last);
    assert tr + TO_DE + de + CLOSING == middle;
    assert en + TO_TR + tr + TO_DE + de + CLOSING == en + [34] + (toTr + middle);
  }

  lemma KeyFormat(m: Message, l: Locale)
    ensures Key(m, l) == "i18n:" + Base64(Json(m))[..16] + ":" + (if l == En then "en" else if l == Tr then "tr" else "de")
  {
  }

  // ---------------------------------------------------------------- the cache

  function Direct(m: Message, l: Locale): Text {
    var t := match l case En => m.en case Tr => m.tr case De => m.de;
    if t != [] then t else m.en
  }

  datatype Request = Request(message: Message, locale: Locale)

  /** A call of `i18n` at one of its awaits: the shared cache's get, or its set of `text`, which the
      memory cache is still to `remember` or came from. */
  datatype Waiting =
    | AtGet(request: Request)
    | AtSet(request: Request, text: Text, remember: bool)

  /** `remote` is the optional shared cache. */
  datatype State = State(memory: map<string, Text>, remote: Option<map<string, Text>>, waiting: seq<Waiting>)

  /** A call of `i18n` takes up to three steps, between which anything else may happen. `reachable` says
      whether the shared cache still returns what it holds, and `ok` whether the awaited call returned
      or threw. The shared cache may forget a key at any time, and other processes may write to it. */
  datatype Event =
    | Sync(request: Request)
    | Begin(request: Request)
    | GetEnds(call: nat, reachable: bool, ok: bool)
    | SetEnds(call: nat, ok: bool)
    | Clear
    | SetProvider(contents: map<string, Text>)
    | Expire(key: string)
    | Elsewhere(key: string, text: Text)

  function Initial(): State {
    State(map[], None, [])
  }

  function Remember(s: State, key: string, t: Text): State {
    if |s.memory| < MAX_ENTRIES then s.(memory := s.memory[key := t]) else s
  }

  function Share(s: State, key: string, t: Text): State {
    if s.remote.Some? then s.(remote := Some(s.remote.value[key := t])) else s
  }

  /** An empty cached text counts as no text at all. */
  function Cached(cache: map<string, Text>, key: string): Text {
    if key in cache then cache[key] else []
  }

  function KeyOf(r: Request): string {
    Key(r.message, r.locale)
  }

  function DirectOf(r: Request): Text {
    Direct(r.message, r.locale)
  }

  /** The whole lookup when there is no shared cache: it has no await. */
  function MemoryLookup(s: State, key: string, direct: Text): (State, Text) {
    var cached := Cached(s.memory, key);
    if cached != [] then (s, cached) else (Remember(s, key, direct), direct)
  }

  /** From the answered get to the set, or to the end when there is nothing to await. */
  function AfterGet(s: State, r: Request, shared: Text): (State, Option<Text>) {
    var cached := Cached(s.memory, KeyOf(r));
    if shared != [] then (s, Some(shared))
    else if s.remote.None? then
      var (s', t) := MemoryLookup(s, KeyOf(r), DirectOf(r));
      (s', Some(t))
    else if cached != [] then (s.(waiting := s.waiting + [AtSet(r, cached, false)]), None)
    else (s.(waiting := s.waiting + [AtSet(r, DirectOf(r), true)]), None)
  }

  function AfterSet(s: State, w: Waiting): State
    requires w.AtSet?
  {
    var s := Share(s, KeyOf(w.request), w.text);
    if w.remember then Remember(s, KeyOf(w.request), w.text) else s
  }

  function Resumed(s: State, call: nat): State
    requires call < |s.waiting|
  {
    s.(waiting := s.waiting[..call] + s.waiting[call + 1..])
  }

  /** The request a step works on. */
  function RequestOf(s: State, e: Event): Option<Request> {
    match e
    case Sync(r) => Some(r)
    case Begin(r) => Some(r)
    case GetEnds(i, _, _) => if i < |s.waiting| && s.waiting[i].AtGet? then Some(s.waiting[i].request) else None
    case SetEnds(i, _) => if i < |s.waiting| && s.waiting[i].AtSet? then Some(s.waiting[i].request) else None
    case _ => None
  }

  /** The new state, and the translation returned if the call ends with this step. */
  function Answer(s: State, e: Event): (State, Option<Text>) {
    var r := RequestOf(s, e);
    match e
    case Sync(_) =>
      var (s', t) := MemoryLookup(s, KeyOf(r.value), DirectOf(r.value));
      (s', Some(t))
    case Begin(_) =>
      if s.remote.Some? then (s.(waiting := s.waiting + [AtGet(r.value)]), None)
      else
        var (s', t) := MemoryLookup(s, KeyOf(r.value), DirectOf(r.value));
        (s', Some(t))
    case GetEnds(i, reachable, ok) =>
      if r.None? then (s, None)
      else if !ok then (Resumed(s, i), Some(DirectOf(r.value)))
      else
        AfterGet(Resumed(s, i), r.value, if reachable && s.remote.Some? then Cached(s.remote.value, KeyOf(r.value)) else [])
    case SetEnds(i, ok) =>
      if r.None? then (s, None)
      else if !ok then (Resumed(s, i), Some(DirectOf(r.value)))
      else (AfterSet(Resumed(s, i), s.waiting[i]), Some(s.waiting[i].text))
    case Clear => (s.(memory := map[]), None)
    case SetProvider(contents) => (s.(remote := Some(contents)), None)
    case Expire(key) => (if s.remote.Some? then s.(remote := Some(s.remote.value - {key})) else s, None)
    case Elsewhere(key, t) => (Share(s, key, t), None)
  }

  function Run(s: State, events: seq<Event>): State
    decreases |events|
  {
    if events == [] then s else Run(Answer(s, events[0]).0, events[1..])
  }

  class TranslationService {
    var memoryCache: map<string, Text>
    var provider: Option<map<string, Text>>
    ghost var waiting: seq<Waiting>

    ghost function Abstract(): State
      reads this
    {
      State(memoryCache, provider, waiting)
    }

    constructor ()
      ensures Abstract() == Initial()
    {
      memoryCache, provider, waiting := map[], None, [];
    }

    method I18nSync(msg: Message, locale: Locale) returns (t: Text)
      modifies this
      ensures (Abstract(), Some(t)) == Answer(old(Abstract()), Sync(Request(msg, locale)))
    {
      var cacheKey := Key(msg, locale);
      if cacheKey in memoryCache && memoryCache[cacheKey] != [] { return memoryCache[cacheKey]; }
      t := Direct(msg, locale);
      if |memoryCache| < MAX_ENTRIES {
        memoryCache := memoryCache[cacheKey := t];
      }
    }

    /** `i18n` up to its first await; without a shared cache it runs to its end. */
    method BeginI18n(msg: Message, locale: Locale) returns (t: Option<Text>)
      modifies this
      ensures (Abstract(), t) == Answer(old(Abstract()), Begin(Request(msg, locale)))
    {
      if provider.Some? {
        waiting := waiting + [AtGet(Request(msg, locale))];
        return None;
      }
      var text := I18nSync(msg, locale);
      return Some(text);
    }

    /** `i18n` from the shared cache's answer to its next await, or to its end. */
    method EndGet(msg: Message, locale: Locale, ghost call: nat, reachable: bool, ok: bool) returns (t: Option<Text>)
      requires call < |waiting| && waiting[call] == AtGet(Request(msg, locale))
      modifies this
      ensures (Abstract(), t) == Answer(old(Abstract()), GetEnds(call, reachable, ok))
    {
      var cacheKey := Key(msg, locale);
      waiting := waiting[..call] + waiting[call + 1..];
      if !ok { return Some(Direct(msg, locale)); }
      if provider.None? {
        var text := I18nSync(msg, locale);
        return Some(text);
      }
      if reachable && cacheKey in provider.value && provider.value[cacheKey] != [] {
        return Some(provider.value[cacheKey]);
      }
      if cacheKey in memoryCache && memoryCache[cacheKey] != [] {
        waiting := waiting + [AtSet(Request(msg, locale), memoryCache[cacheKey], false)];
      } else {
        waiting := waiting + [AtSet(Request(msg, locale), Direct(msg, locale), true)];
      }
      return None;
    }

    /** `i18n` from the end of its set. */
    method EndSet(msg: Message, locale: Locale, text: Text, remember: bool, ghost call: nat, ok: bool) returns (t: Text)
      requires call < |waiting| && waiting[call] == AtSet(Request(msg, locale), text, remember)
      modifies this
      ensures (Abstract(), Some(t)) == Answer(old(Abstract()), SetEnds(call, ok))
    {
      var cacheKey := Key(msg, locale);
      waiting := waiting[..call] + waiting[call + 1..];
      if !ok { return Direct(msg, locale); }
      if provider.Some? { provider := Some(provider.value[cacheKey := text]); }
      if remember && |memoryCache| < MAX_ENTRIES {
        memoryCache := memoryCache[cacheKey := text];
      }
      return text;
    }

    method ClearI18nCache()
      modifies this
      ensures Abstract() == Answer(old(Abstract()), Clear).0
    {
      memoryCache := map[];
    }
  }

  // ---------------------------------------------------------------- agreement with direct lookup

  /** The messages in use, and what other processes may leave in the shared cache or write to it. */
  datatype World = World(uses: set<Request>, others: set<(string, Text)>)

  ghost predicate Backed(world: World, key: string, t: Text) {
    || (exists r :: r in world.uses && KeyOf(r) == key && DirectOf(r) == t)
    || (t != [] && (key, t) in world.others)
  }

  /** Every cached text, and every text about to be, is the direct lookup of some message in use with
      that key. */
  ghost predicate Sound(s: State, world: World) {
    && |s.memory| <= 500
    && AllBacked(s.memory, world)
    && (s.remote.Some? ==> AllBacked(s.remote.value, world))
    && forall k :: 0 <= k < |s.waiting| ==> WaitsFor(s.waiting[k], world)
  }

  ghost predicate WaitsFor(w: Waiting, world: World) {
    w.request in world.uses && (w.AtSet? ==> Backed(world, KeyOf(w.request), w.text))
  }

  predicate Uses(e: Event, world: World) {
    && (e.Sync? || e.Begin? ==> e.request in world.uses)
    && (e.SetProvider? ==> forall k :: k in e.contents ==> (k, e.contents[k]) in world.others)
    && (e.Elsewhere? ==> (e.key, e.text) in world.others)
  }

  ghost predicate AllBacked(cache: map<string, Text>, world: World) {
    forall k :: k in cache && cache[k] != [] ==> Backed(world, k, cache[k])
  }

  lemma PutBacked(cache: map<string, Text>, key: string, t: Text, world: World)
    requires AllBacked(cache, world) && Backed(world, key, t)
    ensures AllBacked(cache[key := t], world)
    ensures |cache[key := t]| <= |cache| + 1
  {
    var after := cache[key := t];
    assert after.Keys == cache.Keys + {key};
    forall k | k in after && after[k] != [] ensures Backed(world, k, after[k]) {
    }
  }

  lemma RememberSound(s: State, key: string, t: Text, world: World)
    requires Sound(s, world) && Backed(world, key, t)
    ensures Sound(Remember(s, key, t), world)
  {
    PutBacked(s.memory, key, t, world);
  }

  lemma ShareSound(s: State, key: string, t: Text, world: World)
    requires Sound(s, world) && Backed(world, key, t)
    ensures Sound(Share(s, key, t), world)
  {
    if s.remote.Some? { PutBacked(s.remote.value, key, t, world); }
  }

  lemma LookupSound(s: State, key: string, direct: Text, world: World)
    requires Sound(s, world) && Backed(world, key, direct)
    ensures Sound(MemoryLookup(s, key, direct).0, world) && Backed(world, key, MemoryLookup(s, key, direct).1)
  {
    RememberSound(s, key, direct, world);
  }

  lemma DirectIsBacked(r: Request, world: World)
    requires r in world.uses
    ensures Backed(world, KeyOf(r), DirectOf(r))
  {
  }

  lemma WaitSound(s: State, w: Waiting, world: World)
    requires Sound(s, world) && WaitsFor(w, world)
    ensures Sound(s.(waiting := s.waiting + [w]), world)
  {
  }

  lemma ResumedSound(s: State, call: nat, world: World)
    requires Sound(s, world) && call < |s.waiting|
    ensures Sound(Resumed(s, call), world)
  {
  }

  lemma AfterGetSound(s: State, r: Request, shared: Text, world: World)
    requires Sound(s, world) && r in world.uses
    requires shared != [] ==> Backed(world, KeyOf(r), shared)
    ensures var (s', t) := AfterGet(s, r, shared);
            Sound(s', world) && (t.Some? ==> Backed(world, KeyOf(r), t.value))
  {
    var key, direct, cached := KeyOf(r), DirectOf(r), Cached(s.memory, KeyOf(r));
    DirectIsBacked(r, world);
    if s.remote.None? {
      LookupSound(s, key, direct, world);
    } else if cached != [] {
      WaitSound(s, AtSet(r, cached, false), world);
    } else {
      WaitSound(s, AtSet(r, direct, true), world);
    }
  }

  lemma AfterSetSound(s: State, w: Waiting, world: World)
    requires Sound(s, world) && w.AtSet? && WaitsFor(w, world)
    ensures Sound(AfterSet(s, w), world)
  {
    ShareSound(s, KeyOf(w.request), w.text, world);
    RememberSound(Share(s, KeyOf(w.request), w.text), KeyOf(w.request), w.text, world);
  }

  ghost predicate AnswerIsBacked(s: State, e: Event, world: World) {
    Answer(s, e).1.Some? ==> RequestOf(s, e).Some? && RequestOf(s, e).value in world.uses
                             && Backed(world, KeyOf(RequestOf(s, e).value), Answer(s, e).1.value)
  }

  lemma AnswerSound(s: State, e: Event, world: World)
    requires Sound(s, world) && Uses(e, world)
    ensures Sound(Answer(s, e).0, world) && AnswerIsBacked(s, e, world)
  {
    var r := RequestOf(s, e);
    if r.Some? {
      assert r.value in world.uses by {
        if e.GetEnds? || e.SetEnds? { assert WaitsFor(s.waiting[e.call], world); }
      }
      DirectIsBacked(r.value, world);
    }
    match e
    case Sync(q) => LookupSound(s, KeyOf(q), DirectOf(q), world);
    case Begin(q) => if s.remote.Some? { WaitSound(s, AtGet(q), world); } else { LookupSound(s, KeyOf(q), DirectOf(q), world); }
    case GetEnds(i, reachable, ok) =>
      if r.Some? {
        ResumedSound(s, i, world);
        if ok {
          AfterGetSound(Resumed(s, i), r.value,
                        if reachable && s.remote.Some? then Cached(s.remote.value, KeyOf(r.value)) else [], world);
        }
      }
    case SetEnds(i, ok) =>
      if r.Some? {
        assert WaitsFor(s.waiting[i], world);
        ResumedSound(s, i, world);
        AfterSetSound(Resumed(s, i), s.waiting[i], world);
      }
    case _ =>
  }

  lemma {:induction false} RunSound(s: State, events: seq<Event>, world: World)
    requires Sound(s, world)
    requires Within(events, world)
    ensures Sound(Run(s, events), world)
    decreases |events|
  {
    if events != [] {
      assert Uses(events[0], world);
      AnswerSound(s, events[0], world);
      RunSound(Answer(s, events[0]).0, events[1..], world);
    }
  }

  /** In every reachable state, however calls interleave at their awaits, an answer is the direct lookup
      of some message in use with the same key, or was put there for that key by another process; and the
      memory cache holds at most 500 entries. */
  lemma AnswersAreBacked(events: seq<Event>, e: Event, world: World)
    requires Uses(e, world) && Within(events, world)
    ensures var s := Run(Initial(), events);
            |s.memory| <= 500 && AnswerIsBacked(s, e, world)
  {
    RunSound(Initial(), events, world);
    AnswerSound(Run(Initial(), events), e, world);
  }

  /** Messages in use that share a key translate alike, and what other processes cache for them is right. */
  predicate Consistent(world: World) {
    && (forall q, r :: q in world.uses && r in world.uses && KeyOf(q) == KeyOf(r) ==> DirectOf(q) == DirectOf(r))
    && forall r :: r in world.uses ==> OthersRight(world, r)
  }

  predicate OthersRight(world: World, r: Request) {
    forall o :: o in world.others && o.0 == KeyOf(r) && o.1 != [] ==> o.1 == DirectOf(r)
  }

  predicate Within(events: seq<Event>, world: World) {
    forall k :: 0 <= k < |events| ==> Uses(events[k], world)
  }

  /** Every answer of every run over these messages is the direct lookup. */
  ghost predicate AlwaysDirect(world: World) {
    forall events: seq<Event>, e: Event | Within(events, world) && Uses(e, world) :: AnsweredDirectly(events, e)
  }

  predicate AnsweredDirectly(events: seq<Event>, e: Event) {
    var s := Run(Initial(), events);
    Answer(s, e).1.Some? && RequestOf(s, e).Some? ==> Answer(s, e).1.value == DirectOf(RequestOf(s, e).value)
  }

  lemma CollisionAnswersWrong(q: Request, r: Request)
    requires KeyOf(q) == KeyOf(r)
    requires DirectOf(q) != []
    ensures Answer(Run(Initial(), [Sync(q)]), Sync(r)).1 == Some(DirectOf(q))
  {
    assert [Sync(q)][1..] == [];
    var s := Answer(Initial(), Sync(q)).0;
    assert Run(Initial(), [Sync(q)]) == s;
    assert Cached(s.memory, KeyOf(r)) == DirectOf(q);
  }

  lemma CollisionBreaksDirectness(world: World, q: Request, r: Request)
    requires q in world.uses && r in world.uses && KeyOf(q) == KeyOf(r)
    requires DirectOf(q) != DirectOf(r) && DirectOf(q) != []
    ensures !AlwaysDirect(world)
  {
    CollisionAnswersWrong(q, r);
    assert Within([Sync(q)], world) && Uses(Sync(r), world) && !AnsweredDirectly([Sync(q)], Sync(r));
  }

  lemma OthersAnswerWrong(world: World, r: Request)
    requires r in world.uses && !OthersRight(world, r)
    ensures !AlwaysDirect(world)
  {
    var o :| o in world.others && o.0 == KeyOf(r) && o.1 != [] && o.1 != DirectOf(r);
    var events, e := [SetProvider(map[]), Elsewhere(o.0, o.1), Begin(r)], GetEnds(0, true, true);
    var s := State(map[], Some(map[o.0 := o.1]), [AtGet(r)]);
    OthersWrite(r, o.0, o.1);
    assert RequestOf(s, e) == Some(r);
    assert Answer(s, e).1 == Some(o.1);
    assert Within(events, world) && Uses(e, world) && !AnsweredDirectly(events, e);
  }

  lemma OthersWrite(r: Request, key: string, t: Text)
    ensures Run(Initial(), [SetProvider(map[]), Elsewhere(key, t), Begin(r)])
            == State(map[], Some(map[key := t]), [AtGet(r)])
  {
    var events := [SetProvider(map[]), Elsewhere(key, t), Begin(r)];
    var s1, s2 := State(map[], Some(map[]), []), State(map[], Some(map[key := t]), []);
    assert events[1..][1..] == events[2..] && events[2..][1..] == [];
    assert Answer(Initial(), events[0]).0 == s1 && Answer(s1, events[1]).0 == s2;
    assert Run(s2, events[2..]) == Answer(s2, Begin(r)).0;
    assert Run(s1, events[1..]) == Run(s2, events[2..]);
  }

  /** Every answer of every run is the direct lookup exactly when the messages in use that share a
      key translate alike and other processes leave or write nothing else for them. */
  lemma AlwaysDirectIff(world: World)
    ensures AlwaysDirect(world) <==> Consistent(world)
  {
    if Consistent(world) {
      forall events: seq<Event>, e: Event | Within(events, world) && Uses(e, world) ensures AnsweredDirectly(events, e) {
        AnswersAreBacked(events, e, world);
        if Answer(Run(Initial(), events), e).1.Some? { ConsistentIsDirect(Run(Initial(), events), e, world); }
      }
    } else if r :| r in world.uses && !OthersRight(world, r) {
      OthersAnswerWrong(world, r);
    } else {
      var q, r :| q in world.uses && r in world.uses && KeyOf(q) == KeyOf(r) && DirectOf(q) != DirectOf(r);
      if DirectOf(q) != [] {
        CollisionBreaksDirectness(world, q, r);
      } else {
        CollisionBreaksDirectness(world, r, q);
      }
    }
  }

  lemma ConsistentIsDirect(s: State, e: Event, world: World)
    requires Consistent(world) && AnswerIsBacked(s, e, world) && Answer(s, e).1.Some?
    ensures RequestOf(s, e).Some? && Answer(s, e).1.value == DirectOf(RequestOf(s, e).value)
  {
    assert OthersRight(world, RequestOf(s, e).value);
  }

  /** The step ends a call for `r`, or is one that may. */
  predicate EndsCallFor(s: State, e: Event, r: Request) {
    match e
    case Sync(q) => q == r
    case Begin(q) => q == r
    case GetEnds(i, _, _) => i < |s.waiting| && s.waiting[i] == AtGet(r)
    case SetEnds(i, _) => i < |s.waiting| && s.waiting[i].AtSet? && s.waiting[i].request == r
    case _ => false
  }

  /** In a consistent world every answer is the text of the requested locale, or the English one where
      that is empty; and a synchronous lookup always answers. */
  lemma ConsistentWorldTranslates(events: seq<Event>, e: Event, r: Request, world: World)
    requires Consistent(world) && Within(events, world) && Uses(e, world)
    requires EndsCallFor(Run(Initial(), events), e, r)
    ensures e.Sync? ==> Answer(Run(Initial(), events), e).1.Some?
    ensures var t := Answer(Run(Initial(), events), e).1;
            t.Some? ==> t.value == match r.locale
                                   case En => r.message.en
                                   case Tr => if r.message.tr != [] then r.message.tr else r.message.en
                                   case De => if r.message.de != [] then r.message.de else r.message.en
  {
    AnswersAreBacked(events, e, world);
    if Answer(Run(Initial(), events), e).1.Some? { ConsistentIsDirect(Run(Initial(), events), e, world); }
  }

  /** A call of `i18n` that nothing interrupts: the shared cache answers first, then the memory cache, and
      then the message, which both caches then hold, the memory cache if it had fewer than 500 entries. */
  lemma UndisturbedCall(memory: map<string, Text>, remote: map<string, Text>, r: Request)
    ensures var key := KeyOf(r);
            var s1 := Answer(State(memory, Some(remote), []), Begin(r)).0;
            var (s2, t2) := Answer(s1, GetEnds(0, true, true));
            var (s3, t3) := Answer(s2, SetEnds(0, true));
            && s1 == State(memory, Some(remote), [AtGet(r)])
            && if key in remote && remote[key] != [] then t2 == Some(remote[key]) && s2 == State(memory, Some(remote), [])
               else
                 && t2 == None
                 && var t := if key in memory && memory[key] != [] then memory[key] else DirectOf(r);
                    && t3 == Some(t) && s3.waiting == [] && s3.remote == Some(remote[key := t])
                    && s3.memory == if (key !in memory || memory[key] == []) && |memory| < 500 then memory[key := t]
                                    else memory
  {
  }

  /** When the shared cache throws, the call answers from the message and changes no cache. */
  lemma FailingCacheIsBypassed(s: State, i: nat)
    requires i < |s.waiting|
    ensures var e := if s.waiting[i].AtGet? then GetEnds(i, false, false) else SetEnds(i, false);
            var (s', t) := Answer(s, e);
            && s'.memory == s.memory && s'.remote == s.remote
            && t == Some(DirectOf(s.waiting[i].request)) && |s'.waiting| == |s.waiting| - 1
  {
  }

  /** Without a shared cache, and for the synchronous lookup: a cached text is the answer; otherwise the
      message is, and it is remembered as long as fewer than 500 are. */
  lemma MemoryAnswers(s: State, r: Request)
    ensures var (s', t) := Answer(s, Sync(r));
            var key := KeyOf(r);
            if key in s.memory && s.memory[key] != [] then t == Some(s.memory[key]) && s' == s
            else t == Some(DirectOf(r)) && s' == if |s.memory| < 500 then s.(memory := s.memory[key := t.value]) else s
    ensures s.remote == None ==> Answer(s, Begin(r)) == Answer(s, Sync(r))
    ensures Answer(s, Clear).0 == s.(memory := map[])
  {
  }

  /** Distinct twelve-byte prefixes suffice, with a shared cache of the process's own. */
  lemma DistinctPrefixesAreConsistent(uses: set<Request>)
    requires forall q, r :: q in uses && r in uses && Json(q.message)[..12] == Json(r.message)[..12] ==>
               q.message == r.message
    ensures AlwaysDirect(World(uses, {}))
  {
    forall q, r | q in uses && r in uses && KeyOf(q) == KeyOf(r) ensures DirectOf(q) == DirectOf(r) {
      KeysEqualIff(q.message, q.locale, r.message, r.locale);
    }
    AlwaysDirectIff(World(uses, {}));
  }

  // "Password reset successful" and "Password changed successfully"
  const RESET: Text := [80, 97, 115, 115, 119, 111, 114, 100, 32,
                         114, 101, 115, 101, 116, 32, 115, 117, 99, 99, 101, 115, 115, 102, 117, 108]
  const CHANGED: Text := [80, 97, 115, 115, 119, 111, 114, 100, 32,
                           99, 104, 97, 110, 103, 101, 100, 32, 115, 117, 99, 99, 101, 115, 115, 102, 117, 108, 108, 121]

  /** Two of the application's own messages, whatever their other texts: after the first has been looked
      up, the second answers with the first one's English text. */
  lemma PasswordMessagesCollide(tr1: Text, de1: Text, tr2: Text, de2: Text)
    ensures var changed := Request(Message(CHANGED, tr2, de2), En);
            Answer(Run(Initial(), [Sync(Request(Message(RESET, tr1, de1), En))]), Sync(changed)).1 == Some(RESET)
            && RESET != Direct(changed.message, En)
  {
    var reset, changed := Message(RESET, tr1, de1), Message(CHANGED, tr2, de2);
    PasswordPrefix();
    FiveBytesAnswerWrong(reset, changed);
  }

  /** Any two messages whose non-empty English texts differ but share their first five bytes do this. */
  lemma FiveBytesAnswerWrong(m: Message, n: Message)
    requires |m.en| >= 5 && |n.en| >= 5 && m.en[..5] == n.en[..5] && Plain(m.en[..5])
    ensures Answer(Run(Initial(), [Sync(Request(m, En))]), Sync(Request(n, En))).1 == Some(m.en)
    ensures Direct(n, En) == n.en
  {
    FiveBytesCollide(m, n, En);
    CollisionAnswersWrong(Request(m, En), Request(n, En));
  }

  lemma PasswordPrefix()
    ensures |RESET| == 25 && |CHANGED| == 29
    ensures RESET[..5] == CHANGED[..5] && Plain(RESET[..5])
  {
    assert RESET[..5] == [80, 97, 115, 115, 119] && CHANGED[..5] == [80, 97, 115, 115, 119];
  }
}
