/**
 A reader of JSON texts, written from the grammar alone (sections 2 to 7 of RFC 8259), and what
 it makes of the canonical text: the partner that says the text is JSON and means its value.
 */
module JsonReading {
  import opened Options
  import opened CanonicalJson

  // ---------- The grammar ----------

  function HexDigit(h: CodeUnit): Option<nat> {
    if 0x30 <= h <= 0x39 then Some(h - 0x30)
    else if 0x61 <= h <= 0x66 then Some(h - 0x61 + 10)
    else if 0x41 <= h <= 0x46 then Some(h - 0x41 + 10)
    else None
  }

  /** The unit four hexadecimal digits spell. */
  function FourHex(t: Text): (u: Option<CodeUnit>)
    requires |t| == 4
  {
    match (HexDigit(t[0]), HexDigit(t[1]), HexDigit(t[2]), HexDigit(t[3]))
    case (Some(a), Some(b), Some(c), Some(d)) =>
      var u := ((a * 16 + b) * 16 + c) * 16 + d;
      if u < 0x1_0000 then Some(u) else None
    case _ => None
  }

  /** Quotation mark, reverse solidus, solidus, b, f, n, r and t. */
  function EscapedUnit(letter: CodeUnit): Option<CodeUnit> {
    if letter == 0x22 then Some(0x22)
    else if letter == 0x5C then Some(0x5C)
    else if letter == 0x2F then Some(0x2F)
    else if letter == 0x62 then Some(0x08)
    else if letter == 0x66 then Some(0x0C)
    else if letter == 0x6E then Some(0x0A)
    else if letter == 0x72 then Some(0x0D)
    else if letter == 0x74 then Some(0x09)
    else None
  }

  /** One character of a string, escaped or not, and what follows it. */
  function ReadUnit(t: Text): (r: Option<(CodeUnit, Text)>)
    ensures r.Some? ==> |r.value.1| < |t|
  {
    if t == [] || t[0] < 0x20 || t[0] == 0x22 then None
    else if t[0] != 0x5C then Some((t[0], t[1..]))
    else if |t| >= 2 && EscapedUnit(t[1]).Some? then Some((EscapedUnit(t[1]).value, t[2..]))
    else if |t| >= 6 && t[1] == 0x75 && FourHex(t[2..6]).Some? then Some((FourHex(t[2..6]).value, t[6..]))
    else None
  }

  /** A string from after its first quotation mark to its last, and what follows that. */
  function ReadString(t: Text): (r: Option<(Text, Text)>)
    ensures r.Some? ==> |r.value.1| < |t|
    decreases |t|
  {
    if t != [] && t[0] == 0x22 then Some(([], t[1..]))
    else
      match ReadUnit(t)
      case None => None
      case Some((u, rest)) =>
        match ReadString(rest)
        case None => None
        case Some((text, after)) => Some(([u] + text, after))
  }

  predicate InNumber(u: CodeUnit) {
    0x30 <= u <= 0x39 || u == 0x2B || u == 0x2D || u == 0x2E || u == 0x45 || u == 0x65
  }

  function NumberEnd(t: Text): (n: nat)
    ensures n <= |t|
  {
    if t != [] && InNumber(t[0]) then 1 + NumberEnd(t[1..]) else 0
  }

  function ReadValue(t: Text): (r: Option<(Json, Text)>)
    ensures r.Some? ==> |r.value.1| < |t|
    decreases |t|, 0
  {
    if t == [] then None
    else if t[0] == 0x22 then
      match ReadString(t[1..])
      case None => None
      case Some((text, rest)) => Some((String(text), rest))
    else if t[0] == 0x5B then
      match ReadItems(t[1..], true)
      case None => None
      case Some((items, rest)) => Some((Array(items), rest))
    else if t[0] == 0x7B then
      match ReadMembers(t[1..], true)
      case None => None
      case Some((members, rest)) => Some((Object(members), rest))
    else if |t| >= 4 && t[..4] == [0x6E, 0x75, 0x6C, 0x6C] then Some((Null, t[4..]))
    else if |t| >= 4 && t[..4] == [0x74, 0x72, 0x75, 0x65] then Some((Bool(true), t[4..]))
    else if |t| >= 5 && t[..5] == [0x66, 0x61, 0x6C, 0x73, 0x65] then Some((Bool(false), t[5..]))
    else
      var n := NumberEnd(t);
      if n == 0 then None else Some((Number(t[..n]), t[n..]))
  }

  /** The values of an array to its closing bracket; all but the first follow a comma. */
  function ReadItems(t: Text, first: bool): (r: Option<(seq<Json>, Text)>)
    ensures r.Some? ==> |r.value.1| < |t|
    decreases |t|, 1
  {
    if t == [] then None
    else if t[0] == 0x5D then Some(([], t[1..]))
    else if !first && t[0] != 0x2C then None
    else
      match ReadValue(if first then t else t[1..])
      case None => None
      case Some((v, rest)) =>
        match ReadItems(rest, false)
        case None => None
        case Some((items, after)) => Some(([v] + items, after))
  }

  /** The members of an object to its closing brace: strings, colons and values, with commas between. */
  function ReadMembers(t: Text, first: bool): (r: Option<(seq<Member>, Text)>)
    ensures r.Some? ==> |r.value.1| < |t|
    decreases |t|, 1
  {
    if t == [] then None
    else if t[0] == 0x7D then Some(([], t[1..]))
    else if !first && t[0] != 0x2C then None
    else
      match ReadName(if first then t else t[1..])
      case None => None
      case Some((key, rest)) =>
        match ReadValue(rest)
        case None => None
        case Some((v, more)) =>
          match ReadMembers(more, false)
          case None => None
          case Some((members, after)) => Some(([Member(key, v)] + members, after))
  }

  /** A name and its colon. */
  function ReadName(t: Text): (r: Option<(Text, Text)>)
    ensures r.Some? ==> |r.value.1| < |t|
  {
    if t == [] || t[0] != 0x22 then None
    else
      match ReadString(t[1..])
      case None => None
      case Some((key, rest)) => if rest != [] && rest[0] == 0x3A then Some((key, rest[1..])) else None
  }

  // ---------- Strings read back ----------

  lemma HexReads(n: nat)
    requires n < 16
    ensures HexDigit(Hex(n)) == Some(n)
  {
  }

  lemma DigitsOf(u: CodeUnit)
    ensures u == ((u / 0x1000 * 16 + u / 0x100 % 16) * 16 + u / 0x10 % 16) * 16 + u % 16
    ensures u / 0x1000 < 16
  {
    HexDigits(u);
  }

  lemma UnicodeEscapeReadsBack(u: CodeUnit, x: Text)
    ensures EscapedUnit(SMALL_U) == None && ReadUnit(UnicodeEscape(u) + x) == Some((u, x))
  {
    var t := UnicodeEscape(u) + x;
    var a, b, c, d := u / 0x1000, u / 0x100 % 16, u / 0x10 % 16, u % 16;
    DigitsOf(u);
    HexReads(a);
    HexReads(b);
    HexReads(c);
    HexReads(d);
    assert t[2..6] == [Hex(a), Hex(b), Hex(c), Hex(d)];
    hide HexDigit, Hex;
    assert FourHex([Hex(a), Hex(b), Hex(c), Hex(d)]) == Some(u);
    assert t[6..] == x;
  }

  lemma UnitReadsBack(s: Text, i: nat, x: Text)
    requires i < |s|
    ensures ReadUnit(Encode(s, i) + x) == Some((s[i], x))
    ensures (Encode(s, i) + x)[0] != 0x22
  {
    hide FourHex, HexDigit, UnicodeEscape, Lone;
    var u, t := s[i], Encode(s, i) + x;
    if ShortEscape(u) != 0 {
      assert t[0] == 0x5C && t[1] == ShortEscape(u) && t[2..] == x;
    } else if u < 0x20 || Lone(s, i) {
      UnicodeEscapeReadsBack(u, x);
      UnicodeEscapeHead(u);
    } else {
      assert t[0] == u && t[1..] == x;
    }
  }

  lemma UnicodeEscapeHead(u: CodeUnit)
    ensures |UnicodeEscape(u)| == 6 && UnicodeEscape(u)[0] == 0x5C
  {
  }

  lemma {:induction false} BodyReadsBack(s: Text, i: nat, r: Text)
    requires i <= |s|
    ensures ReadString(Body(s, i) + r) == Some((s[i..], r))
    decreases |s| - i
  {
    hide Encode, ReadUnit;
    var t := Body(s, i) + r;
    if i == |s| {
      assert t[0] == 0x22 && t[1..] == r && s[i..] == [];
    } else {
      var x := Body(s, i + 1) + r;
      assert t == Encode(s, i) + x;
      UnitReadsBack(s, i, x);
      BodyReadsBack(s, i + 1, r);
      assert s[i..] == [s[i]] + s[i + 1..];
    }
  }

  lemma QuotedReadsBack(s: Text, r: Text)
    ensures Quoted(s) != [] && (Quoted(s) + r)[0] == 0x22 && ReadString((Quoted(s) + r)[1..]) == Some((s, r))
  {
    assert Quoted(s) + r == [QUOTE] + (Body(s, 0) + r);
    assert ([QUOTE] + (Body(s, 0) + r))[1..] == Body(s, 0) + r;
    BodyReadsBack(s, 0, r);
    assert s[0..] == s;
  }

  // ---------- Values read back ----------

  lemma {:induction false} NumberReadsBack(digits: Text, r: Text)
    requires (forall i | 0 <= i < |digits| :: NumberUnit(digits[i])) && (r == [] || !InNumber(r[0]))
    ensures NumberEnd(digits + r) == |digits|
  {
    if digits == [] {
      assert digits + r == r;
    } else {
      NumberReadsBack(digits[1..], r);
      assert (digits + r)[1..] == digits[1..] + r;
    }
  }

  /** What may follow a value in a text: a comma, a closing bracket or brace, or nothing. */
  predicate Follows(r: Text) {
    r == [] || r[0] == 0x2C || r[0] == 0x5D || r[0] == 0x7D
  }

  /** A value as a text can say it: undefined is said as null. */
  function Said(v: Json): Json {
    match v
    case Undefined => Null
    case Array(elements) => Array(AllSaid(elements))
    case Object(members) => Object(MembersSaid(members))
    case _ => v
  }

  function AllSaid(es: seq<Json>): seq<Json> {
    if es == [] then [] else [Said(es[0])] + AllSaid(es[1..])
  }

  function MembersSaid(ms: seq<Member>): seq<Member> {
    if ms == [] then [] else [Member(ms[0].key, Said(ms[0].value))] + MembersSaid(ms[1..])
  }

  lemma {:induction false} ValueReadsBack(v: Json, r: Text, leq: (Text, Text) -> bool)
    requires Canonical(v, leq) && Follows(r)
    ensures ReadValue(Stringify(v) + r) == Some((Said(v), r))
    decreases v, 1
  {
    hide ReadString, ReadItems, ReadMembers, Quoted;
    var t := Stringify(v) + r;
    match v
    case Undefined => WordReadsBack(v, r);
    case Null => WordReadsBack(v, r);
    case Bool(_) => WordReadsBack(v, r);
    case Number(digits) =>
      NumberReadsBack(digits, r);
      assert t[0] == digits[0] && t[..|digits|] == digits && t[|digits|..] == r;
    case String(text) =>
      QuotedReadsBack(text, r);
      assert t == Quoted(text) + r;
    case Array(elements) =>
      ArrayText(elements, r);
      assert ([OPEN_ARRAY] + (Elements(elements, true) + r))[1..] == Elements(elements, true) + r;
      ItemsReadBack(elements, true, r, leq);
    case Object(members) =>
      ObjectText(members, r);
      assert ([OPEN_OBJECT] + (Members(members, true) + r))[1..] == Members(members, true) + r;
      MembersReadBack(members, true, r, leq);
  }

  lemma WordReadsBack(v: Json, r: Text)
    requires v.Undefined? || v.Null? || v.Bool?
    ensures ReadValue(Stringify(v) + r) == Some((Said(v), r))
  {
    var word := Stringify(v);
    assert (word + r)[..|word|] == word && (word + r)[|word|..] == r;
  }

  lemma ValueHead(v: Json, leq: (Text, Text) -> bool)
    requires Canonical(v, leq)
    ensures Stringify(v) != [] && Stringify(v)[0] != 0x5D && Stringify(v)[0] != 0x2C
  {
  }

  lemma {:induction false} ItemsReadBack(es: seq<Json>, first: bool, r: Text, leq: (Text, Text) -> bool)
    requires forall e | e in es :: Canonical(e, leq)
    ensures ReadItems(Elements(es, first) + r, first) == Some((AllSaid(es), r))
    ensures !first ==> Follows(Elements(es, first) + r)
    decreases es, 0
  {
    hide ReadValue, Stringify, Said, Canonical;
    var t := Elements(es, first) + r;
    if es == [] {
      assert t[0] == 0x5D && t[1..] == r;
    } else {
      assert es[0] in es;
      var x := Elements(es[1..], false) + r;
      var start := Stringify(es[0]) + x;
      assert t == Separator(first) + start;
      ValueHead(es[0], leq);
      assert (if first then t else t[1..]) == start;
      ItemsReadBack(es[1..], false, r, leq);
      ValueReadsBack(es[0], x, leq);
    }
  }

  lemma NameReadsBack(key: Text, r: Text)
    ensures ReadName(Quoted(key) + ([COLON] + r)) == Some((key, r))
  {
    hide ReadString, Quoted;
    QuotedReadsBack(key, [COLON] + r);
    assert ([COLON] + r)[1..] == r;
  }

  lemma {:induction false} MembersReadBack(ms: seq<Member>, first: bool, r: Text, leq: (Text, Text) -> bool)
    requires forall m | m in ms :: Canonical(m.value, leq)
    ensures ReadMembers(Members(ms, first) + r, first) == Some((MembersSaid(ms), r))
    ensures !first ==> Follows(Members(ms, first) + r)
    decreases ms, 0
  {
    hide ReadValue, ReadName, Stringify, Said, Canonical, Quoted;
    var t := Members(ms, first) + r;
    if ms == [] {
      assert t[0] == 0x7D && t[1..] == r;
    } else {
      assert ms[0] in ms;
      var x := Members(ms[1..], false) + r;
      var value := Stringify(ms[0].value) + x;
      var start := Quoted(ms[0].key) + ([COLON] + value);
      MemberText(ms, first, r);
      assert t == Separator(first) + start;
      QuotedHead(ms[0].key);
      assert (if first then t else t[1..]) == start;
      NameReadsBack(ms[0].key, value);
      MembersReadBack(ms[1..], false, r, leq);
      ValueReadsBack(ms[0].value, x, leq);
    }
  }

  lemma QuotedHead(s: Text)
    ensures Quoted(s) != [] && Quoted(s)[0] == 0x22
  {
  }

  // ---------- The canonical text ----------

  /** What is said means what the value means. */
  lemma {:induction false} SaidMeansTheSame(v: Json, leq: (Text, Text) -> bool)
    requires Canonical(v, leq)
    ensures SameMeaning(Said(v), v)
    decreases v, 1
  {
    match v
    case Array(elements) => AllSaidMeanTheSame(elements, leq);
    case Object(members) => MembersSaidMeanTheSame(members, leq);
    case _ =>
  }

  lemma {:induction false} AllSaidMeanTheSame(es: seq<Json>, leq: (Text, Text) -> bool)
    requires forall e | e in es :: Canonical(e, leq)
    ensures MeaningOfAll(AllSaid(es), CODE_DROPS) == MeaningOfAll(es, CODE_DROPS)
    decreases es, 0
  {
    if es != [] {
      assert es[0] in es;
      SaidMeansTheSame(es[0], leq);
      AllSaidMeanTheSame(es[1..], leq);
      assert AllSaid(es)[1..] == AllSaid(es[1..]);
    }
  }

  lemma {:induction false} MembersSaidMeanTheSame(ms: seq<Member>, leq: (Text, Text) -> bool)
    requires forall m | m in ms :: Kept(m) && Canonical(m.value, leq)
    ensures Fields(MembersSaid(ms), CODE_DROPS) == Fields(ms, CODE_DROPS)
    decreases ms, 0
  {
    if ms != [] {
      assert ms[0] in ms;
      SaidMeansTheSame(ms[0].value, leq);
      MembersSaidMeanTheSame(ms[1..], leq);
      assert MembersSaid(ms)[1..] == MembersSaid(ms[1..]);
    }
  }

  /**
   The canonical text is JSON, read to its end, and what it says means what the value means: its
   members sorted, its strings and numbers the value's own.
   */
  lemma CanonicalTextReadsBack(v: Json, leq: (Text, Text) -> bool)
    requires TotalOrder(leq) && WellFormed(v) && !v.Undefined?
    ensures JsonText(v, leq).Some?
    ensures ReadValue(JsonText(v, leq).value) == Some((Said(Canonicalize(v, leq)), []))
    ensures SameMeaning(Said(Canonicalize(v, leq)), v)
  {
    CanonicalizeWorks(v, leq);
    var c := Canonicalize(v, leq);
    ValueReadsBack(c, [], leq);
    assert Stringify(c) + [] == Stringify(c);
    SaidMeansTheSame(c, leq);
  }

  // ---------- No half of a pair ----------

  /** No unit of the text is half of a surrogate pair without the other half. */
  predicate WellPaired(t: Text) {
    forall i | 0 <= i < |t| :: !Alone(t, i)
  }

  /** Section 3.9 of the Unicode Standard: DC00 to DFFF stand right after D800 to DBFF and nowhere else. */
  predicate Alone(t: Text, i: nat)
    requires i < |t|
  {
    || (0xD800 <= t[i] <= 0xDBFF && !(i + 1 < |t| && 0xDC00 <= t[i + 1] <= 0xDFFF))
    || (0xDC00 <= t[i] <= 0xDFFF && !(i > 0 && 0xD800 <= t[i - 1] <= 0xDBFF))
  }

  lemma PairedConcat(a: Text, b: Text)
    requires WellPaired(a) && WellPaired(b)
    ensures WellPaired(a + b)
  {
    forall i | 0 <= i < |a + b|
      ensures !Alone(a + b, i)
    {
      if i < |a| {
        assert !Alone(a, i);
        assert a[i] == (a + b)[i];
      } else {
        assert !Alone(b, i - |a|);
        assert b[i - |a|] == (a + b)[i];
      }
    }
  }

  predicate Ascii(t: Text) {
    forall i | 0 <= i < |t| :: t[i] < 0x80
  }

  lemma EscapesAreAscii(s: Text, i: nat)
    requires i < |s|
    ensures Encode(s, i) == [s[i]] || Ascii(Encode(s, i))
    ensures Lone(s, i) ==> Ascii(Encode(s, i))
    ensures Encode(s, i) == [s[i]] || s[i] < 0x80 || Lone(s, i)
  {
    HexAscii(s[i] / 0x1000 % 16);
    HexAscii(s[i] / 0x100 % 16);
    HexAscii(s[i] / 0x10 % 16);
    HexAscii(s[i] % 16);
    HexDigits(s[i]);
  }

  lemma HexAscii(n: int)
    requires 0 <= n < 16
    ensures Hex(n) < 0x80
  {
  }

  lemma {:induction false} BodyIsWellPaired(s: Text, i: nat)
    requires i <= |s| && !(0 < i < |s| && Lead(s[i - 1]) && Trail(s[i]))
    ensures WellPaired(Body(s, i))
    decreases |s| - i
  {
    hide Encode;
    if i < |s| {
      EscapesAreAscii(s, i);
      if i + 1 < |s| && Lead(s[i]) && Trail(s[i + 1]) {
        EscapesAreAscii(s, i + 1);
        BodyIsWellPaired(s, i + 2);
        assert !Lone(s, i) && !Lone(s, i + 1);
        assert WellPaired([s[i], s[i + 1]]);
        PairedConcat([s[i], s[i + 1]], Body(s, i + 2));
        assert Body(s, i) == [s[i]] + ([s[i + 1]] + Body(s, i + 2));
        assert [s[i]] + ([s[i + 1]] + Body(s, i + 2)) == [s[i], s[i + 1]] + Body(s, i + 2);
      } else {
        BodyIsWellPaired(s, i + 1);
        assert WellPaired(Encode(s, i));
        PairedConcat(Encode(s, i), Body(s, i + 1));
      }
    }
  }

  lemma QuotedIsWellPaired(s: Text)
    ensures WellPaired(Quoted(s))
  {
    BodyIsWellPaired(s, 0);
    PairedConcat([QUOTE], Body(s, 0));
  }

  lemma {:induction false} TextIsWellPaired(v: Json, leq: (Text, Text) -> bool)
    requires Canonical(v, leq)
    ensures WellPaired(Stringify(v))
    decreases v, 1
  {
    hide WellPaired, Quoted;
    match v
    case String(text) => QuotedIsWellPaired(text);
    case Array(elements) =>
      ItemsAreWellPaired(elements, true, leq);
      AsciiIsWellPaired([OPEN_ARRAY]);
      PairedConcat([OPEN_ARRAY], Elements(elements, true));
    case Object(members) =>
      MembersAreWellPaired(members, true, leq);
      AsciiIsWellPaired([OPEN_OBJECT]);
      PairedConcat([OPEN_OBJECT], Members(members, true));
    case Number(digits) => AsciiIsWellPaired(digits);
    case _ => AsciiIsWellPaired(Stringify(v));
  }

  lemma AsciiIsWellPaired(t: Text)
    requires Ascii(t)
    ensures WellPaired(t)
  {
  }

  lemma {:induction false} ItemsAreWellPaired(es: seq<Json>, first: bool, leq: (Text, Text) -> bool)
    requires forall e | e in es :: Canonical(e, leq)
    ensures WellPaired(Elements(es, first))
    decreases es, 0
  {
    hide WellPaired, Stringify, Canonical;
    if es == [] {
      AsciiIsWellPaired([CLOSE_ARRAY]);
    } else {
      assert es[0] in es;
      TextIsWellPaired(es[0], leq);
      ItemsAreWellPaired(es[1..], false, leq);
      AsciiIsWellPaired(Separator(first));
      PairedConcat(Stringify(es[0]), Elements(es[1..], false));
      PairedConcat(Separator(first), Stringify(es[0]) + Elements(es[1..], false));
    }
  }

  lemma {:induction false} MembersAreWellPaired(ms: seq<Member>, first: bool, leq: (Text, Text) -> bool)
    requires forall m | m in ms :: Canonical(m.value, leq)
    ensures WellPaired(Members(ms, first))
    decreases ms, 0
  {
    hide WellPaired, Stringify, Canonical, Quoted;
    if ms == [] {
      AsciiIsWellPaired([CLOSE_OBJECT]);
    } else {
      assert ms[0] in ms;
      var rest := Stringify(ms[0].value) + Members(ms[1..], false);
      TextIsWellPaired(ms[0].value, leq);
      MembersAreWellPaired(ms[1..], false, leq);
      QuotedIsWellPaired(ms[0].key);
      AsciiIsWellPaired(Separator(first));
      AsciiIsWellPaired([COLON]);
      PairedConcat(Stringify(ms[0].value), Members(ms[1..], false));
      PairedConcat([COLON], rest);
      PairedConcat(Quoted(ms[0].key), [COLON] + rest);
      PairedConcat(Separator(first), Quoted(ms[0].key) + ([COLON] + rest));
    }
  }

  /**
   No unit of the canonical text is half of a pair, whatever halves its strings hold, so that
   encoding it in UTF-8 to be digested replaces nothing and keeps different texts different.
   */
  lemma CanonicalTextIsWellPaired(v: Json, leq: (Text, Text) -> bool)
    requires TotalOrder(leq) && WellFormed(v)
    ensures WellPaired(CanonicalText(v, leq))
  {
    CanonicalizeWorks(v, leq);
    TextIsWellPaired(Canonicalize(v, leq), leq);
  }
}
