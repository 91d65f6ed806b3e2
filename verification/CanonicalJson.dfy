/**
 The canonical JSON text that artifact metadata is hashed from
 (crates/core/src/hash.rs), and a parser that reads it back.
 */
module CanonicalJson {
  import opened Hex
  import opened Sorting

  /** A `serde_json::Value`; a number is identified with the text it prints as. */
  datatype Json =
    | Null
    | Bool(b: bool)
    | Num(text: string)
    | Str(s: string)
    | Arr(items: seq<Json>)
    | Obj(members: seq<Member>)

  datatype Member = Member(key: string, value: Json)

  // ----- Text of strings -----

  /** One character inside a JSON string, escaped as serde_json does (section 7 of RFC 8259). */
  function EscapeChar(c: char): (t: string)
    ensures t != ""
  {
    if c == '"' then "\\\""
    else if c == '\\' then "\\\\"
    else if c == 8 as char then "\\b"
    else if c == 9 as char then "\\t"
    else if c == 10 as char then "\\n"
    else if c == 12 as char then "\\f"
    else if c == 13 as char then "\\r"
    else if c < ' ' then "\\u00" + [DigitChar(c as int / 16), DigitChar(c as int % 16)]
    else [c]
  }

  function EscapeAll(s: string): string {
    if s == "" then "" else EscapeChar(s[0]) + EscapeAll(s[1..])
  }

  function Quote(s: string): string { "\"" + EscapeAll(s) + "\"" }

  function Join(parts: seq<string>): string {
    if parts == [] then ""
    else if |parts| == 1 then parts[0]
    else parts[0] + "," + Join(parts[1..])
  }

  // ----- Key order -----

  /** Code-point order, which is also the byte order of UTF-8. */
  predicate StrLeq(a: string, b: string) {
    a == "" || (b != "" && (a[0] < b[0] || (a[0] == b[0] && StrLeq(a[1..], b[1..]))))
  }

  lemma {:induction false} StrLeqTotal(a: string, b: string)
    ensures StrLeq(a, b) || StrLeq(b, a)
    ensures StrLeq(a, b) && StrLeq(b, a) ==> a == b
  {
    if a != "" && b != "" {
      StrLeqTotal(a[1..], b[1..]);
      assert a == [a[0]] + a[1..] && b == [b[0]] + b[1..];
    }
  }

  lemma {:induction false} StrLeqTransitive(a: string, b: string, c: string)
    requires StrLeq(a, b) && StrLeq(b, c)
    ensures StrLeq(a, c)
  {
    if a != "" && a[0] == b[0] && b[0] == c[0] {
      StrLeqTransitive(a[1..], b[1..], c[1..]);
    }
  }

  /** `a` comes strictly before `b`: a proper prefix, or the smaller character at the first difference. */
  ghost predicate Before(a: string, b: string) {
    exists k: nat :: DecidesAt(a, b, k)
  }

  ghost predicate DecidesAt(a: string, b: string, k: nat) {
    k <= |a| && k < |b| && a[..k] == b[..k] && (k == |a| || a[k] < b[k])
  }

  lemma {:induction false} StrLeqByIndex(a: string, b: string)
    ensures StrLeq(a, b) <==> a == b || Before(a, b)
  {
    if a == "" {
      assert b != "" ==> DecidesAt(a, b, 0);
    } else if b != "" && a[0] == b[0] {
      StrLeqByIndex(a[1..], b[1..]);
      if k: nat :| DecidesAt(a[1..], b[1..], k) {
        assert a[..k + 1] == [a[0]] + a[1..][..k] && b[..k + 1] == [b[0]] + b[1..][..k];
        assert DecidesAt(a, b, k + 1);
      }
      if k: nat :| DecidesAt(a, b, k) {
        assert k > 0 && a[1..][..k - 1] == a[..k][1..] && b[1..][..k - 1] == b[..k][1..];
        assert DecidesAt(a[1..], b[1..], k - 1);
      }
      assert a == [a[0]] + a[1..] && b == [b[0]] + b[1..];
    } else if b != "" {
      assert a[0] < b[0] ==> DecidesAt(a, b, 0);
    }
  }

  function ByKey(): (Member, Member) -> bool {
    (m: Member, n: Member) => StrLeq(m.key, n.key)
  }

  lemma KeyOrder()
    ensures TotalPreorder(ByKey())
  {
    forall m: Member, n: Member ensures ByKey()(m, n) || ByKey()(n, m) {
      StrLeqTotal(m.key, n.key);
    }
    forall m: Member, n: Member, o: Member | ByKey()(m, n) && ByKey()(n, o) ensures ByKey()(m, o) {
      StrLeqTransitive(m.key, n.key, o.key);
    }
  }

  function SortMembers(ms: seq<Member>): (sorted: seq<Member>)
    ensures |sorted| == |ms|
    ensures forall m :: m in sorted <==> m in ms
  {
    SortContents(ByKey(), ms);
    var sorted := Sort(ByKey(), ms);
    assert forall m :: m in sorted <==> m in multiset(sorted);
    assert forall m :: m in ms <==> m in multiset(ms);
    sorted
  }

  // ----- The printer -----

  /** `canonical_json_string`: object entries are sorted by key before they are printed. */
  function Print(v: Json): string {
    match v
    case Null => "null"
    case Bool(b) => if b then "true" else "false"
    case Num(t) => t
    case Str(s) => Quote(s)
    case Arr(items) =>
      "[" + Join(seq(|items|, i requires 0 <= i < |items| => Print(items[i]))) + "]"
    case Obj(ms) =>
      var sorted := SortMembers(ms);
      "{" + Join(seq(|sorted|, i requires 0 <= i < |sorted| =>
                   assert sorted[i] in ms;
                   Quote(sorted[i].key) + ":" + Print(sorted[i].value))) + "}"
  }

  /** The same value with every object's entries in key order. */
  function Canon(v: Json): Json {
    match v
    case Arr(items) => Arr(seq(|items|, i requires 0 <= i < |items| => Canon(items[i])))
    case Obj(ms) =>
      var sorted := SortMembers(ms);
      Obj(seq(|sorted|, i requires 0 <= i < |sorted| =>
            assert sorted[i] in ms;
            Member(sorted[i].key, Canon(sorted[i].value))))
    case _ => v
  }

  predicate NumChar(c: char) { '0' <= c <= '9' || c == '-' || c == '+' || c == '.' || c == 'e' || c == 'E' }

  /** The shape of a printed number: it starts with a digit or a minus sign. */
  predicate NumText(t: string) {
    && t != "" && ('0' <= t[0] <= '9' || t[0] == '-')
    && forall i :: 0 <= i < |t| ==> NumChar(t[i])
  }

  ghost predicate UniqueKeys(ms: seq<Member>) {
    forall i, j :: 0 <= i < |ms| && 0 <= j < |ms| && ms[i].key == ms[j].key ==> i == j
  }

  /** What every `serde_json::Value` satisfies: number texts, and no repeated key in an object. */
  ghost predicate WellFormed(v: Json) {
    match v
    case Num(t) => NumText(t)
    case Arr(items) => forall i :: 0 <= i < |items| ==> WellFormed(items[i])
    case Obj(ms) => UniqueKeys(ms) && forall i :: 0 <= i < |ms| ==> WellFormed(ms[i].value)
    case _ => true
  }

  // ----- The parser -----

  datatype Parsed<+T> = Fail | Done(value: T, rest: string)

  function SimpleEscape(c: char): (r: Parsed<char>) {
    if c == '"' || c == '\\' then Done(c, "")
    else if c == 'b' then Done(8 as char, "")
    else if c == 't' then Done(9 as char, "")
    else if c == 'n' then Done(10 as char, "")
    else if c == 'f' then Done(12 as char, "")
    else if c == 'r' then Done(13 as char, "")
    else Fail
  }

  /** One possibly escaped character. */
  function ParseChar(s: string): (r: Parsed<char>)
    ensures r.Done? ==> |r.rest| < |s|
  {
    if s == "" then Fail
    else if s[0] != '\\' then Done(s[0], s[1..])
    else if |s| >= 6 && s[1..4] == "u00" && IsHexDigit(s[4]) && IsHexDigit(s[5]) then
      Done((16 * DigitValue(s[4]) + DigitValue(s[5])) as char, s[6..])
    else if |s| >= 2 && SimpleEscape(s[1]).Done? then Done(SimpleEscape(s[1]).value, s[2..])
    else Fail
  }

  /** The characters of a string up to and including its closing quote. */
  function ParseChars(s: string): (r: Parsed<string>)
    ensures r.Done? ==> |r.rest| < |s|
    decreases |s|
  {
    if s == "" then Fail
    else if s[0] == '"' then Done("", s[1..])
    else
      match ParseChar(s)
      case Fail => Fail
      case Done(c, rest) =>
        match ParseChars(rest)
        case Fail => Fail
        case Done(cs, rest') => Done([c] + cs, rest')
  }

  /** The longest prefix of number characters. */
  function NumPrefix(s: string): (n: nat)
    ensures n <= |s|
  {
    if s == "" || !NumChar(s[0]) then 0 else 1 + NumPrefix(s[1..])
  }

  /** The words and numbers. */
  function ParseAtom(s: string): (r: Parsed<Json>)
    ensures r.Done? ==> |r.rest| < |s|
  {
    if "null" <= s then Done(Null, s[4..])
    else if "true" <= s then Done(Bool(true), s[4..])
    else if "false" <= s then Done(Bool(false), s[5..])
    else if NumPrefix(s) == 0 then Fail
    else Done(Num(s[..NumPrefix(s)]), s[NumPrefix(s)..])
  }

  function ParseStr(s: string): (r: Parsed<Json>)
    ensures r.Done? ==> |r.rest| < |s|
  {
    match ParseChars(s)
    case Fail => Fail
    case Done(cs, rest) => Done(Str(cs), rest)
  }

  function ParseValue(s: string): (r: Parsed<Json>)
    ensures r.Done? ==> |r.rest| < |s|
    decreases |s|, 0
  {
    if s == "" then Fail
    else if s[0] == '"' then ParseStr(s[1..])
    else if s[0] == '[' then ParseArray(s[1..])
    else if s[0] == '{' then ParseObject(s[1..])
    else ParseAtom(s)
  }

  /** The rest of an array after its opening bracket. */
  function ParseArray(s: string): (r: Parsed<Json>)
    ensures r.Done? ==> |r.rest| < |s|
    decreases |s|, 3
  {
    if s != "" && s[0] == ']' then Done(Arr([]), s[1..])
    else
      match ParseItems(s)
      case Fail => Fail
      case Done(items, rest) => Done(Arr(items), rest)
  }

  /** The rest of an object after its opening brace. */
  function ParseObject(s: string): (r: Parsed<Json>)
    ensures r.Done? ==> |r.rest| < |s|
    decreases |s|, 3
  {
    if s != "" && s[0] == '}' then Done(Obj([]), s[1..])
    else
      match ParseMembers(s)
      case Fail => Fail
      case Done(ms, rest) => Done(Obj(ms), rest)
  }

  /** One or more values up to and including the closing bracket. */
  function ParseItems(s: string): (r: Parsed<seq<Json>>)
    ensures r.Done? ==> |r.rest| < |s|
    decreases |s|, 1
  {
    match ParseValue(s)
    case Fail => Fail
    case Done(v, rest) =>
      if rest == "" then Fail
      else if rest[0] == ']' then Done([v], rest[1..])
      else if rest[0] == ',' then
        match ParseItems(rest[1..])
        case Fail => Fail
        case Done(vs, rest') => Done([v] + vs, rest')
      else Fail
  }

  function ParseMember(s: string): (r: Parsed<Member>)
    ensures r.Done? ==> |r.rest| < |s|
    decreases |s|, 1
  {
    if s == "" || s[0] != '"' then Fail
    else
      match ParseChars(s[1..])
      case Fail => Fail
      case Done(key, rest) =>
        if rest == "" || rest[0] != ':' then Fail
        else
          match ParseValue(rest[1..])
          case Fail => Fail
          case Done(v, rest') => Done(Member(key, v), rest')
  }

  function ParseMembers(s: string): (r: Parsed<seq<Member>>)
    ensures r.Done? ==> |r.rest| < |s|
    decreases |s|, 2
  {
    match ParseMember(s)
    case Fail => Fail
    case Done(m, rest) =>
      if rest == "" then Fail
      else if rest[0] == '}' then Done([m], rest[1..])
      else if rest[0] == ',' then
        match ParseMembers(rest[1..])
        case Fail => Fail
        case Done(ms, rest') => Done([m] + ms, rest')
      else Fail
  }

  // ----- Reading back what was printed -----

  /** What may follow a value: the end of the text, or a character no number contains. */
  predicate Delimited(rest: string) { rest == "" || rest[0] == ',' || rest[0] == ']' || rest[0] == '}' }

  /** The parser reads `text` as `v`, wherever it stands. */
  ghost predicate Reads(text: string, v: Json) {
    && text != "" && text[0] != ']' && text[0] != '}'
    && forall rest :: Delimited(rest) ==> ParseValue(text + rest) == Done(v, rest)
  }

  ghost predicate ReadsMember(text: string, m: Member) {
    && text != "" && text[0] == '"'
    && forall rest :: Delimited(rest) ==> ParseMember(text + rest) == Done(m, rest)
  }

  lemma EscapeStep(c: char, t: string)
    ensures EscapeChar(c)[0] != '"'
    ensures ParseChar(EscapeChar(c) + t) == Done(c, t)
  {
    var e := EscapeChar(c);
    var s := e + t;
    if |e| == 6 {
      assert s[1..4] == "u00" && s[6..] == t;
    } else if |e| == 2 {
      assert s[0] == '\\' && s[1] == e[1] && s[2..] == t;
      assert |s| >= 6 ==> s[1..4][0] == s[1];
      assert SimpleEscape(e[1]) == Done(c, "");
    } else {
      assert s[1..] == t;
    }
  }

  lemma EscapedText(first: string, others: string, rest: string)
    ensures first + others + "\"" + rest == first + (others + "\"" + rest)
  {
  }

  lemma {:induction false} QuoteReadBack(s: string, rest: string)
    ensures ParseChars(EscapeAll(s) + "\"" + rest) == Done(s, rest)
  {
    if s == "" {
      assert EscapeAll(s) + "\"" + rest == "\"" + rest;
      assert ("\"" + rest)[1..] == rest;
    } else {
      var tail := EscapeAll(s[1..]) + "\"" + rest;
      EscapeStep(s[0], tail);
      QuoteReadBack(s[1..], rest);
      EscapedText(EscapeChar(s[0]), EscapeAll(s[1..]), rest);
      assert s == [s[0]] + s[1..];
    }
  }

  lemma {:induction false} NumPrefixOfText(t: string, rest: string)
    requires (forall i :: 0 <= i < |t| ==> NumChar(t[i])) && Delimited(rest)
    ensures NumPrefix(t + rest) == |t|
  {
    if t != "" {
      NumPrefixOfText(t[1..], rest);
      assert (t + rest)[1..] == t[1..] + rest;
    } else {
      assert t + rest == rest;
    }
  }

  lemma NumberReads(t: string)
    requires NumText(t)
    ensures Reads(t, Num(t))
  {
    forall rest | Delimited(rest) ensures ParseValue(t + rest) == Done(Num(t), rest) {
      NumPrefixOfText(t, rest);
      assert (t + rest)[0] == t[0];
      assert (t + rest)[..|t|] == t && (t + rest)[|t|..] == rest;
    }
  }

  lemma QuoteSplit(s: string, rest: string)
    ensures Quote(s) + rest == "\"" + (EscapeAll(s) + "\"" + rest)
  {
  }

  lemma StringStep(body: string, s: string, rest: string)
    requires ParseChars(body) == Done(s, rest)
    ensures ParseValue("\"" + body) == Done(Str(s), rest)
  {
    assert ("\"" + body)[1..] == body;
  }

  lemma StringReads(s: string)
    ensures Reads(Quote(s), Str(s))
  {
    forall rest | Delimited(rest) ensures ParseValue(Quote(s) + rest) == Done(Str(s), rest) {
      QuoteReadBack(s, rest);
      QuoteSplit(s, rest);
      StringStep(EscapeAll(s) + "\"" + rest, s, rest);
    }
  }

  lemma LastItem(s: string, v: Json, rest: string)
    requires ParseValue(s) == Done(v, "]" + rest)
    ensures ParseItems(s) == Done([v], rest)
  {
    assert ("]" + rest)[1..] == rest;
  }

  lemma NextItem(s: string, v: Json, tail: string, vs: seq<Json>, rest: string)
    requires ParseValue(s) == Done(v, "," + tail) && ParseItems(tail) == Done(vs, rest)
    ensures ParseItems(s) == Done([v] + vs, rest)
  {
    assert ("," + tail)[1..] == tail;
  }

  lemma LastMember(s: string, m: Member, rest: string)
    requires ParseMember(s) == Done(m, "}" + rest)
    ensures ParseMembers(s) == Done([m], rest)
  {
    assert ("}" + rest)[1..] == rest;
  }

  lemma NextMember(s: string, m: Member, tail: string, ms: seq<Member>, rest: string)
    requires ParseMember(s) == Done(m, "," + tail) && ParseMembers(tail) == Done(ms, rest)
    ensures ParseMembers(s) == Done([m] + ms, rest)
  {
    assert ("," + tail)[1..] == tail;
  }

  lemma JoinMore(texts: seq<string>, close: string)
    requires |texts| > 1
    ensures Join(texts) + close == texts[0] + ("," + (Join(texts[1..]) + close))
  {
  }

  lemma ReadsAt(text: string, v: Json, rest: string)
    requires Reads(text, v) && Delimited(rest)
    ensures ParseValue(text + rest) == Done(v, rest)
  {
  }

  lemma {:induction false} ItemsRead(texts: seq<string>, vs: seq<Json>, rest: string)
    requires |texts| == |vs| > 0 && forall i :: 0 <= i < |vs| ==> Reads(texts[i], vs[i])
    ensures ParseItems(Join(texts) + ("]" + rest)) == Done(vs, rest)
  {
    var close := "]" + rest;
    if |texts| == 1 {
      ReadsAt(texts[0], vs[0], close);
      LastItem(texts[0] + close, vs[0], rest);
      assert vs == [vs[0]];
    } else {
      var tail := Join(texts[1..]) + close;
      ItemsRead(texts[1..], vs[1..], rest);
      JoinMore(texts, close);
      ReadsAt(texts[0], vs[0], "," + tail);
      NextItem(texts[0] + ("," + tail), vs[0], tail, vs[1..], rest);
      assert vs == [vs[0]] + vs[1..];
    }
  }

  lemma ReadsMemberAt(text: string, m: Member, rest: string)
    requires ReadsMember(text, m) && Delimited(rest)
    ensures ParseMember(text + rest) == Done(m, rest)
  {
  }

  lemma {:induction false} MembersRead(texts: seq<string>, ms: seq<Member>, rest: string)
    requires |texts| == |ms| > 0 && forall i :: 0 <= i < |ms| ==> ReadsMember(texts[i], ms[i])
    ensures ParseMembers(Join(texts) + ("}" + rest)) == Done(ms, rest)
  {
    var close := "}" + rest;
    if |texts| == 1 {
      ReadsMemberAt(texts[0], ms[0], close);
      LastMember(texts[0] + close, ms[0], rest);
      assert ms == [ms[0]];
    } else {
      var tail := Join(texts[1..]) + close;
      MembersRead(texts[1..], ms[1..], rest);
      JoinMore(texts, close);
      ReadsMemberAt(texts[0], ms[0], "," + tail);
      NextMember(texts[0] + ("," + tail), ms[0], tail, ms[1..], rest);
      assert ms == [ms[0]] + ms[1..];
    }
  }

  lemma MemberStep(body: string, key: string, s: string, v: Json, rest: string)
    requires ParseChars(body) == Done(key, ":" + s) && ParseValue(s) == Done(v, rest)
    ensures ParseMember("\"" + body) == Done(Member(key, v), rest)
  {
    assert ("\"" + body)[1..] == body;
    assert (":" + s)[1..] == s;
  }

  lemma MemberReadsAt(key: string, text: string, v: Json, rest: string)
    requires ParseValue(text + rest) == Done(v, rest)
    ensures ParseMember(Quote(key) + ":" + text + rest) == Done(Member(key, v), rest)
  {
    var after := ":" + (text + rest);
    QuoteReadBack(key, after);
    MemberStep(EscapeAll(key) + "\"" + after, key, text + rest, v, rest);
    QuoteSplit(key, after);
    MemberText(Quote(key), text, rest);
  }

  lemma MemberText(quoted: string, text: string, rest: string)
    ensures quoted + ":" + text + rest == quoted + (":" + (text + rest))
  {
  }

  lemma MemberReads(key: string, text: string, v: Json)
    requires Reads(text, v)
    ensures ReadsMember(Quote(key) + ":" + text, Member(key, v))
  {
    forall rest | Delimited(rest)
      ensures ParseMember(Quote(key) + ":" + text + rest) == Done(Member(key, v), rest)
    {
      ReadsAt(text, v, rest);
      MemberReadsAt(key, text, v, rest);
    }
  }

  lemma ArrayStep(body: string, items: seq<Json>, rest: string)
    requires body != "" && body[0] != ']' && ParseItems(body) == Done(items, rest)
    ensures ParseValue("[" + body) == Done(Arr(items), rest)
  {
    assert ("[" + body)[1..] == body;
  }

  lemma ObjectStep(body: string, ms: seq<Member>, rest: string)
    requires body != "" && body[0] != '}' && ParseMembers(body) == Done(ms, rest)
    ensures ParseValue("{" + body) == Done(Obj(ms), rest)
  {
    assert ("{" + body)[1..] == body;
  }

  lemma EmptyListsRead(rest: string)
    ensures ParseValue("[" + ("]" + rest)) == Done(Arr([]), rest)
    ensures ParseValue("{" + ("}" + rest)) == Done(Obj([]), rest)
  {
    assert ("[" + ("]" + rest))[1..] == "]" + rest && ("]" + rest)[1..] == rest;
    assert ("{" + ("}" + rest))[1..] == "}" + rest && ("}" + rest)[1..] == rest;
  }

  lemma JoinStart(texts: seq<string>)
    requires texts != [] && texts[0] != ""
    ensures Join(texts) != "" && Join(texts)[0] == texts[0][0]
  {
  }

  lemma BracketText(open: string, inner: string, close: string, rest: string)
    ensures open + inner + close + rest == open + (inner + (close + rest))
  {
  }

  lemma ArrayReads(texts: seq<string>, vs: seq<Json>)
    requires |texts| == |vs| && forall i :: 0 <= i < |vs| ==> Reads(texts[i], vs[i])
    ensures Reads("[" + Join(texts) + "]", Arr(vs))
  {
    var t := "[" + Join(texts) + "]";
    forall rest | Delimited(rest) ensures ParseValue(t + rest) == Done(Arr(vs), rest) {
      var body := Join(texts) + ("]" + rest);
      BracketText("[", Join(texts), "]", rest);
      if vs == [] {
        EmptyListsRead(rest);
        assert body == "]" + rest;
      } else {
        assert Reads(texts[0], vs[0]);
        JoinStart(texts);
        ItemsRead(texts, vs, rest);
        ArrayStep(body, vs, rest);
      }
    }
  }

  lemma ObjectReads(texts: seq<string>, ms: seq<Member>)
    requires |texts| == |ms| && forall i :: 0 <= i < |ms| ==> ReadsMember(texts[i], ms[i])
    ensures Reads("{" + Join(texts) + "}", Obj(ms))
  {
    var t := "{" + Join(texts) + "}";
    forall rest | Delimited(rest) ensures ParseValue(t + rest) == Done(Obj(ms), rest) {
      var body := Join(texts) + ("}" + rest);
      BracketText("{", Join(texts), "}", rest);
      if ms == [] {
        EmptyListsRead(rest);
        assert body == "}" + rest;
      } else {
        assert ReadsMember(texts[0], ms[0]);
        JoinStart(texts);
        MembersRead(texts, ms, rest);
        ObjectStep(body, ms, rest);
      }
    }
  }

  lemma WordsRead()
    ensures Reads("null", Null) && Reads("true", Bool(true)) && Reads("false", Bool(false))
  {
    forall rest: string
      ensures ParseValue("null" + rest) == Done(Null, rest)
      ensures ParseValue("true" + rest) == Done(Bool(true), rest)
      ensures ParseValue("false" + rest) == Done(Bool(false), rest)
    {
      assert ("null" + rest)[4..] == rest && ("true" + rest)[4..] == rest && ("false" + rest)[5..] == rest;
      assert ("null" + rest)[0] == 'n' && ("true" + rest)[0] == 't' && ("false" + rest)[0] == 'f';
    }
  }

  /** The parser recovers every nested value from its canonical text. */
  lemma {:induction false} PrintReadBack(v: Json)
    requires WellFormed(v)
    ensures Reads(Print(v), Canon(v))
  {
    match v
    case Null => WordsRead();
    case Bool(_) => WordsRead();
    case Num(t) => NumberReads(t);
    case Str(s) => StringReads(s);
    case Arr(items) =>
      forall i | 0 <= i < |items| ensures Reads(Print(items[i]), Canon(items[i])) {
        PrintReadBack(items[i]);
      }
      ArrayReads(seq(|items|, i requires 0 <= i < |items| => Print(items[i])),
                 seq(|items|, i requires 0 <= i < |items| => Canon(items[i])));
    case Obj(ms) =>
      var sorted := SortMembers(ms);
      var texts, cs := MemberTexts(ms), CanonMembers(ms);
      forall i | 0 <= i < |sorted| ensures ReadsMember(texts[i], cs[i]) {
        assert sorted[i] in ms;
        PrintReadBack(sorted[i].value);
        MemberReads(sorted[i].key, Print(sorted[i].value), Canon(sorted[i].value));
      }
      ObjectReads(texts, cs);
      assert Print(v) == "{" + Join(texts) + "}" && Canon(v) == Obj(cs);
  }

  function MemberTexts(ms: seq<Member>): (texts: seq<string>)
    ensures |texts| == |ms|
  {
    var sorted := SortMembers(ms);
    seq(|sorted|, i requires 0 <= i < |sorted| => Quote(sorted[i].key) + ":" + Print(sorted[i].value))
  }

  function CanonMembers(ms: seq<Member>): (cs: seq<Member>)
    ensures |cs| == |ms|
  {
    var sorted := SortMembers(ms);
    seq(|sorted|, i requires 0 <= i < |sorted| => Member(sorted[i].key, Canon(sorted[i].value)))
  }

  // ----- What the escapes are -----

  /** Printable characters stand for themselves; control characters get a short form or a lower-case \\u00xx. */
  lemma EscapeForms(c: char)
    ensures c >= ' ' && c != '"' && c != '\\' ==> EscapeChar(c) == [c]
    ensures EscapeChar('"') == ['\\', '"'] && EscapeChar('\\') == ['\\', '\\']
    ensures EscapeChar(8 as char) == "\\b" && EscapeChar(9 as char) == "\\t" && EscapeChar(10 as char) == "\\n"
    ensures EscapeChar(12 as char) == "\\f" && EscapeChar(13 as char) == "\\r"
    ensures c < ' ' && c as int !in {8, 9, 10, 12, 13} ==>
              && |EscapeChar(c)| == 6 && EscapeChar(c)[..4] == "\\u00"
              && (forall i :: 4 <= i < 6 ==> '0' <= EscapeChar(c)[i] <= '9' || 'a' <= EscapeChar(c)[i] <= 'f')
              && IsHexDigit(EscapeChar(c)[4]) && IsHexDigit(EscapeChar(c)[5])
              && 16 * DigitValue(EscapeChar(c)[4]) + DigitValue(EscapeChar(c)[5]) == c as int
  {
  }

  // ----- Equality up to key order -----

  /** Member `m` is matched by some member of `ns` under the same key. */
  ghost predicate Matched(m: Member, ns: seq<Member>)
    decreases m
  {
    exists j :: 0 <= j < |ns| && ns[j].key == m.key && Same(m.value, ns[j].value)
  }

  /** The same value, object entries being unordered. */
  ghost predicate Same(v: Json, w: Json)
    decreases v
  {
    match v
    case Arr(xs) => w.Arr? && |xs| == |w.items| && forall i :: 0 <= i < |xs| ==> Same(xs[i], w.items[i])
    case Obj(ms) =>
      && w.Obj?
      && (forall i :: 0 <= i < |ms| ==> Matched(ms[i], w.members))
      && (forall j :: 0 <= j < |w.members| ==> HasKey(ms, w.members[j].key))
    case _ => v == w
  }

  ghost predicate HasKey(ms: seq<Member>, k: string) {
    exists i :: 0 <= i < |ms| && ms[i].key == k
  }

  ghost predicate StrictlySorted(ms: seq<Member>) {
    forall i, j :: 0 <= i < j < |ms| ==> StrLeq(ms[i].key, ms[j].key) && ms[i].key != ms[j].key
  }

  lemma SortedMembersStrict(ms: seq<Member>)
    requires UniqueKeys(ms)
    ensures StrictlySorted(SortMembers(ms))
    ensures UniqueKeys(SortMembers(ms))
  {
    var sorted := SortMembers(ms);
    KeyOrder();
    SortSorted(ByKey(), ms);
    SortContents(ByKey(), ms);
    forall i, j | 0 <= i < j < |sorted| ensures StrLeq(sorted[i].key, sorted[j].key) && sorted[i].key != sorted[j].key {
      assert ByKey()(sorted[i], sorted[j]);
      if sorted[i].key == sorted[j].key {
        RepeatedKey(sorted, i, j, ms);
      }
    }
  }

  /** A key repeated after sorting was repeated before. */
  lemma RepeatedKey(sorted: seq<Member>, i: nat, j: nat, ms: seq<Member>)
    requires multiset(sorted) == multiset(ms) && i < j < |sorted| && sorted[i].key == sorted[j].key
    ensures !UniqueKeys(ms)
  {
    if sorted[i] == sorted[j] {
      OccursTwice(sorted, i, j);
      var i', j' := TwoPlaces(ms, sorted[i]);
      assert ms[i'].key == ms[j'].key;
    } else {
      assert sorted[i] in multiset(sorted) && sorted[j] in multiset(sorted);
      var i', j' := IndexOf(ms, sorted[i]), IndexOf(ms, sorted[j]);
      assert ms[i'].key == ms[j'].key;
    }
  }

  lemma OccursTwice(ms: seq<Member>, i: nat, j: nat)
    requires i < j < |ms| && ms[i] == ms[j]
    ensures multiset(ms)[ms[i]] >= 2
  {
    assert ms == ms[..j] + ms[j..];
    assert ms[i] in ms[..j] && ms[j] in ms[j..];
  }

  lemma TwoPlaces(ms: seq<Member>, m: Member) returns (i: nat, j: nat)
    requires multiset(ms)[m] >= 2
    ensures i < j < |ms| && ms[i] == m == ms[j]
  {
    i := IndexOf(ms, m);
    assert ms == ms[..i] + [m] + ms[i + 1..];
    if m in ms[..i] {
      j := i;
      i :| 0 <= i < j && ms[..j][i] == m;
    } else {
      assert m in multiset(ms[i + 1..]);
      j := i + 1 + IndexOf(ms[i + 1..], m);
    }
  }

  /** Strictly sorted member lists with the same keys have them at the same places. */
  lemma {:induction false} SameKeysAligned(ms: seq<Member>, ns: seq<Member>)
    requires StrictlySorted(ms) && StrictlySorted(ns)
    requires forall k :: HasKey(ms, k) <==> HasKey(ns, k)
    ensures |ms| == |ns| && forall i :: 0 <= i < |ms| ==> ms[i].key == ns[i].key
  {
    if ms == [] {
      assert ns != [] ==> HasKey(ns, ns[0].key);
    } else {
      assert HasKey(ms, ms[0].key);
      var j :| 0 <= j < |ns| && ns[j].key == ms[0].key;
      assert HasKey(ns, ns[0].key);
      var i :| 0 <= i < |ms| && ms[i].key == ns[0].key;
      StrLeqTotal(ms[0].key, ns[0].key);
      assert ms[0].key == ns[0].key;
      forall k ensures HasKey(ms[1..], k) <==> HasKey(ns[1..], k) {
        TailKeys(ms, k);
        TailKeys(ns, k);
      }
      SameKeysAligned(ms[1..], ns[1..]);
      forall i | 0 < i < |ms| ensures ms[i].key == ns[i].key {
        assert ms[1..][i - 1].key == ns[1..][i - 1].key;
      }
    }
  }

  lemma TailKeys(ms: seq<Member>, k: string)
    requires StrictlySorted(ms) && ms != []
    ensures HasKey(ms[1..], k) <==> HasKey(ms, k) && k != ms[0].key
  {
    if HasKey(ms[1..], k) {
      var i :| 0 <= i < |ms[1..]| && ms[1..][i].key == k;
      assert ms[i + 1].key == k;
    }
    if HasKey(ms, k) && k != ms[0].key {
      var i :| 0 <= i < |ms| && ms[i].key == k;
      assert ms[1..][i - 1].key == k;
    }
  }

  lemma SortKeepsKeys(ms: seq<Member>, k: string)
    ensures HasKey(SortMembers(ms), k) <==> HasKey(ms, k)
  {
    var sorted := SortMembers(ms);
    if HasKey(sorted, k) {
      var i :| 0 <= i < |sorted| && sorted[i].key == k;
      assert sorted[i] in ms;
    }
    if HasKey(ms, k) {
      var i :| 0 <= i < |ms| && ms[i].key == k;
      assert ms[i] in sorted;
    }
  }

  /** After sorting, members of equal objects stand side by side. */
  lemma SortedSideBySide(ms: seq<Member>, ns: seq<Member>)
    requires UniqueKeys(ms) && UniqueKeys(ns) && Same(Obj(ms), Obj(ns))
    ensures |ms| == |ns|
    ensures var ss, ts := SortMembers(ms), SortMembers(ns);
            forall i :: 0 <= i < |ss| ==> ss[i].key == ts[i].key && Same(ss[i].value, ts[i].value)
  {
    var ss, ts := SortMembers(ms), SortMembers(ns);
    SortedMembersStrict(ms);
    SortedMembersStrict(ns);
    forall k ensures HasKey(ss, k) <==> HasKey(ts, k) {
      SortKeepsKeys(ms, k);
      SortKeepsKeys(ns, k);
      if HasKey(ms, k) {
        var i :| 0 <= i < |ms| && ms[i].key == k;
        assert Matched(ms[i], ns);
      }
    }
    SameKeysAligned(ss, ts);
    forall i | 0 <= i < |ss| ensures Same(ss[i].value, ts[i].value) {
      assert ss[i] in ms && ts[i] in ns;
      assert Matched(ss[i], ns);
      var j :| 0 <= j < |ns| && ns[j].key == ss[i].key && Same(ss[i].value, ns[j].value);
      assert ns[j] == ts[i];
    }
  }

  /** Key order is the only thing the text forgets: equal values print alike. */
  lemma {:induction false} SamePrintsAlike(v: Json, w: Json)
    requires WellFormed(v) && WellFormed(w) && Same(v, w)
    ensures Print(v) == Print(w)
    decreases v
  {
    match v
    case Arr(xs) =>
      forall i | 0 <= i < |xs| ensures Print(xs[i]) == Print(w.items[i]) {
        SamePrintsAlike(xs[i], w.items[i]);
      }
      assert seq(|xs|, i requires 0 <= i < |xs| => Print(xs[i]))
          == seq(|w.items|, i requires 0 <= i < |w.items| => Print(w.items[i]));
    case Obj(ms) =>
      var ss, ts := SortMembers(ms), SortMembers(w.members);
      SortedSideBySide(ms, w.members);
      forall i | 0 <= i < |ss| ensures MemberTexts(ms)[i] == MemberTexts(w.members)[i] {
        assert ss[i] in ms && ts[i] in w.members;
        SamePrintsAlike(ss[i].value, ts[i].value);
      }
      assert MemberTexts(ms) == MemberTexts(w.members);
      assert Print(v) == "{" + Join(MemberTexts(ms)) + "}";
      assert Print(w) == "{" + Join(MemberTexts(w.members)) + "}";
    case _ =>
  }

  lemma {:induction false} SameCanonSame(v: Json, w: Json)
    requires Canon(v) == Canon(w)
    ensures Same(v, w)
    decreases v
  {
    match v
    case Arr(xs) =>
      forall i | 0 <= i < |xs| ensures Same(xs[i], w.items[i]) {
        assert Canon(v).items[i] == Canon(w).items[i];
        SameCanonSame(xs[i], w.items[i]);
      }
    case Obj(ms) =>
      var ns := w.members;
      assert CanonMembers(ms) == Canon(v).members == Canon(w).members == CanonMembers(ns);
      forall i | 0 <= i < |ms| ensures Matched(ms[i], ns) {
        var j := Counterpart(ms, ns, i);
        SameCanonSame(ms[i].value, ns[j].value);
      }
      forall j | 0 <= j < |ns| ensures HasKey(ms, ns[j].key) {
        var i := Counterpart(ns, ms, j);
      }
    case _ =>
  }

  /** The member of `ns` that ended at the same place as `ms[i]`. */
  lemma Counterpart(ms: seq<Member>, ns: seq<Member>, i: nat) returns (j: nat)
    requires CanonMembers(ms) == CanonMembers(ns) && i < |ms|
    ensures j < |ns| && ns[j].key == ms[i].key && Canon(ns[j].value) == Canon(ms[i].value)
  {
    var ss, ts := SortMembers(ms), SortMembers(ns);
    assert ms[i] in ss;
    var p :| 0 <= p < |ss| && ss[p] == ms[i];
    assert CanonMembers(ms)[p] == CanonMembers(ns)[p];
    assert ts[p] in ns;
    j :| 0 <= j < |ns| && ns[j] == ts[p];
  }

  /** The canonical text determines the value up to key order, and nothing else reaches it. */
  lemma PrintIsCanonical(v: Json, w: Json)
    requires WellFormed(v) && WellFormed(w)
    ensures Print(v) == Print(w) <==> Same(v, w)
  {
    if Print(v) == Print(w) {
      PrintReadBack(v);
      PrintReadBack(w);
      assert ParseValue(Print(v) + "") == Done(Canon(v), "");
      assert ParseValue(Print(w) + "") == Done(Canon(w), "");
      SameCanonSame(v, w);
    }
    if Same(v, w) {
      SamePrintsAlike(v, w);
    }
  }

  // ----- What the printed text holds -----

  /** Keys ascend strictly in every object, at every depth. */
  ghost predicate Ordered(v: Json) {
    match v
    case Arr(items) => forall i :: 0 <= i < |items| ==> Ordered(items[i])
    case Obj(ms) =>
      && (forall i, j :: 0 <= i < j < |ms| ==> Before(ms[i].key, ms[j].key))
      && (forall i :: 0 <= i < |ms| ==> Ordered(ms[i].value))
    case _ => true
  }

  lemma {:induction false} CanonOrdered(v: Json)
    requires WellFormed(v)
    ensures Ordered(Canon(v))
  {
    match v
    case Arr(items) =>
      forall i | 0 <= i < |items| ensures Ordered(Canon(items[i])) { CanonOrdered(items[i]); }
    case Obj(ms) =>
      var sorted, cs := SortMembers(ms), CanonMembers(ms);
      SortedMembersStrict(ms);
      forall i, j | 0 <= i < j < |cs| ensures Before(cs[i].key, cs[j].key) {
        StrLeqByIndex(sorted[i].key, sorted[j].key);
      }
      forall i | 0 <= i < |cs| ensures Ordered(cs[i].value) {
        assert sorted[i] in ms;
        CanonOrdered(sorted[i].value);
      }
      assert Canon(v) == Obj(cs);
    case _ =>
  }

  lemma {:induction false} SameAsCanon(v: Json)
    ensures Same(v, Canon(v))
  {
    match v
    case Arr(items) =>
      forall i | 0 <= i < |items| ensures Same(items[i], Canon(items[i])) { SameAsCanon(items[i]); }
    case Obj(ms) =>
      var sorted, cs := SortMembers(ms), CanonMembers(ms);
      assert Canon(v) == Obj(cs);
      forall i | 0 <= i < |ms| ensures Matched(ms[i], cs) {
        assert ms[i] in sorted;
        var j :| 0 <= j < |sorted| && sorted[j] == ms[i];
        SameAsCanon(ms[i].value);
        assert cs[j].key == ms[i].key;
      }
      forall j | 0 <= j < |cs| ensures HasKey(ms, cs[j].key) {
        assert sorted[j] in ms;
        var i :| 0 <= i < |ms| && ms[i] == sorted[j];
      }
    case _ =>
  }

  /**
   Read as JSON, the printed text is the same value, with the keys of every object in
   strictly ascending order.
   */
  lemma PrintsOrdered(v: Json) returns (w: Json)
    requires WellFormed(v)
    ensures ParseValue(Print(v)) == Done(w, "") && Same(v, w) && Ordered(w)
  {
    w := Canon(v);
    PrintReadBack(v);
    ReadsAt(Print(v), w, "");
    assert Print(v) + "" == Print(v);
    CanonOrdered(v);
    SameAsCanon(v);
  }

  // ----- Objects of one and of two members -----

  lemma {:induction false} PlainText(s: string)
    requires forall i :: 0 <= i < |s| ==> s[i] >= ' ' && s[i] != '"' && s[i] != '\\'
    ensures EscapeAll(s) == s
  {
    if s != "" {
      PlainText(s[1..]);
      assert s == [s[0]] + s[1..];
    }
  }

  function EntryText(m: Member): string { Quote(m.key) + ":" + Print(m.value) }

  lemma OneMemberText(m: Member)
    ensures Print(Obj([m])) == "{" + EntryText(m) + "}"
  {
    SortFixpoint(ByKey(), [m]);
    assert SortMembers([m]) == [m];
    assert MemberTexts([m]) == [EntryText(m)];
    assert Print(Obj([m])) == "{" + Join(MemberTexts([m])) + "}";
  }

  lemma TwoMemberText(m: Member, n: Member)
    requires Before(m.key, n.key)
    ensures Print(Obj([m, n])) == "{" + (EntryText(m) + "," + EntryText(n)) + "}"
  {
    StrLeqByIndex(m.key, n.key);
    SortFixpoint(ByKey(), [m, n]);
    assert SortMembers([m, n]) == [m, n];
    assert MemberTexts([m, n]) == [EntryText(m), EntryText(n)];
    JoinTwo(EntryText(m), EntryText(n));
    assert Print(Obj([m, n])) == "{" + Join(MemberTexts([m, n])) + "}";
  }

  lemma JoinTwo(s: string, t: string)
    ensures Join([s, t]) == s + "," + t
  {
    assert [s, t][1..] == [t];
  }
}
