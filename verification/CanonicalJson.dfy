/**
 Deterministic JSON (packages/core/src/canonical-json.ts): the object members sorted, the
 undefined ones dropped, and the whole written by JSON.stringify.  The question is which
 values get the same text.
 */
module CanonicalJson {
  import opened Options

  /** Strings are UTF-16 code units, lone surrogates included. */
  type CodeUnit = u: int | 0 <= u < 0x1_0000

  type Text = seq<CodeUnit>

  /** A number is its own decimal text; members are in insertion order. */
  datatype Json =
    | Undefined
    | Null
    | Bool(b: bool)
    | Number(digits: Text)
    | String(text: Text)
    | Array(elements: seq<Json>)
    | Object(members: seq<Member>)

  datatype Member = Member(key: Text, value: Json)

  const COMMA: CodeUnit := 0x2C
  const COLON: CodeUnit := 0x3A
  const QUOTE: CodeUnit := 0x22
  const BACKSLASH: CodeUnit := 0x5C
  const OPEN_ARRAY: CodeUnit := 0x5B
  const CLOSE_ARRAY: CodeUnit := 0x5D
  const OPEN_OBJECT: CodeUnit := 0x7B
  const CLOSE_OBJECT: CodeUnit := 0x7D
  const SMALL_U: CodeUnit := 0x75

  /** The words null, true and false, and the key __proto__. */
  const NULL_TEXT: Text := [0x6E, 0x75, 0x6C, 0x6C]
  const TRUE_TEXT: Text := [0x74, 0x72, 0x75, 0x65]
  const FALSE_TEXT: Text := [0x66, 0x61, 0x6C, 0x73, 0x65]
  const PROTO: Text := [0x5F, 0x5F, 0x70, 0x72, 0x6F, 0x74, 0x6F, 0x5F, 0x5F]

  /** A digit, a sign, a point or an exponent mark. */
  predicate NumberUnit(u: CodeUnit) {
    0x30 <= u <= 0x39 || u == 0x2D || u == 0x2B || u == 0x2E || u == 0x65
  }

  predicate NumberText(digits: Text) {
    digits != [] && (0x30 <= digits[0] <= 0x39 || digits[0] == 0x2D)
    && forall i | 0 <= i < |digits| :: NumberUnit(digits[i])
  }

  predicate OneOf(u: CodeUnit, letters: string) {
    exists i :: 0 <= i < |letters| && u == letters[i] as int
  }

  /** They begin with a digit or a minus and go on with digits, signs, points and exponent marks. */
  lemma NumberTextExactly(digits: Text)
    ensures NumberText(digits) <==>
            && digits != [] && OneOf(digits[0], "0123456789-")
            && forall i | 0 <= i < |digits| :: OneOf(digits[i], "0123456789-+.e")
  {
    if digits != [] {
      LettersOfNumbers(digits[0]);
    }
    forall i | 0 <= i < |digits|
      ensures NumberUnit(digits[i]) <==> OneOf(digits[i], "0123456789-+.e")
    {
      LettersOfNumbers(digits[i]);
    }
  }

  lemma LettersOfNumbers(u: CodeUnit)
    ensures NumberUnit(u) <==> OneOf(u, "0123456789-+.e")
    ensures 0x30 <= u <= 0x39 || u == 0x2D <==> OneOf(u, "0123456789-")
  {
    var long, short := "0123456789-+.e", "0123456789-";
    if 0x30 <= u <= 0x39 {
      assert long[u - 0x30] as int == u && short[u - 0x30] as int == u;
    }
    assert short[10] as int == 0x2D;
    assert long[10] as int == 0x2D && long[11] as int == 0x2B && long[12] as int == 0x2E && long[13] as int == 0x65;
  }

  /** What the constants spell. */
  lemma WordsExactly()
    ensures COMMA == ',' as int && COLON == ':' as int && QUOTE == '"' as int && BACKSLASH == '\\' as int
    ensures OPEN_ARRAY == '[' as int && CLOSE_ARRAY == ']' as int && SMALL_U == 'u' as int
    ensures OPEN_OBJECT == '{' as int && CLOSE_OBJECT == '}' as int
    ensures |NULL_TEXT| == 4 && forall i | 0 <= i < 4 :: NULL_TEXT[i] == "null"[i] as int
    ensures |TRUE_TEXT| == 4 && forall i | 0 <= i < 4 :: TRUE_TEXT[i] == "true"[i] as int
    ensures |FALSE_TEXT| == 5 && forall i | 0 <= i < 5 :: FALSE_TEXT[i] == "false"[i] as int
    ensures |PROTO| == 9 && forall i | 0 <= i < 9 :: PROTO[i] == "__proto__"[i] as int
  {
  }

  /** Objects have distinct keys, and numbers are finite. */
  predicate WellFormed(v: Json) {
    match v
    case Number(digits) => NumberText(digits)
    case Array(elements) => forall e | e in elements :: WellFormed(e)
    case Object(members) => DistinctKeys(members) && forall m | m in members :: WellFormed(m.value)
    case _ => true
  }

  predicate DistinctKeys(ms: seq<Member>) {
    forall i, j | 0 <= i < j < |ms| :: ms[i].key != ms[j].key
  }

  // ---------- What a value means ----------

  datatype Data =
    | Nothing
    | Truth(b: bool)
    | Amount(digits: Text)
    | Words(text: Text)
    | List(items: seq<Data>)
    | Record(fields: map<Text, Data>)

  /** The value up to member order and undefined members, and with the members under `dropped` keys left out. */
  function Meaning(v: Json, dropped: set<Text>): Data {
    match v
    case Undefined => Nothing
    case Null => Nothing
    case Bool(b) => Truth(b)
    case Number(digits) => Amount(digits)
    case String(text) => Words(text)
    case Array(elements) => List(MeaningOfAll(elements, dropped))
    case Object(members) => Record(Fields(members, dropped))
  }

  function MeaningOfAll(es: seq<Json>, dropped: set<Text>): (items: seq<Data>)
    ensures |items| == |es|
  {
    if es == [] then [] else [Meaning(es[0], dropped)] + MeaningOfAll(es[1..], dropped)
  }

  function Fields(ms: seq<Member>, dropped: set<Text>): map<Text, Data> {
    if ms == [] then map[] else
    var rest := Fields(ms[1..], dropped);
    var m := ms[0];
    if m.key in dropped || m.value.Undefined? then rest else rest[m.key := Meaning(m.value, dropped)]
  }

  // ---------- Canonical form ----------

  /** A fixed order of keys: the order in which JSON.stringify meets the members of the sorted copy. */
  ghost predicate TotalOrder(leq: (Text, Text) -> bool) {
    && (forall a, b :: leq(a, b) || leq(b, a))
    && (forall a, b :: leq(a, b) && leq(b, a) ==> a == b)
    && (forall a, b, c :: leq(a, b) && leq(b, c) ==> leq(a, c))
  }

  function Insert(m: Member, ms: seq<Member>, leq: (Text, Text) -> bool): (r: seq<Member>)
    ensures multiset(r) == multiset(ms) + multiset{m}
  {
    if ms == [] then [m]
    else if leq(m.key, ms[0].key) then [m] + ms
    else
      assert ms == [ms[0]] + ms[1..];
      [ms[0]] + Insert(m, ms[1..], leq)
  }

  function Sort(ms: seq<Member>, leq: (Text, Text) -> bool): (r: seq<Member>)
    ensures multiset(r) == multiset(ms)
  {
    if ms == [] then []
    else
      assert ms == [ms[0]] + ms[1..];
      Insert(ms[0], Sort(ms[1..], leq), leq)
  }

  lemma SameMembers(a: seq<Member>, b: seq<Member>)
    requires multiset(a) == multiset(b)
    ensures forall m :: m in a <==> m in b
  {
    forall m
      ensures m in a <==> m in b
    {
      assert m in multiset(a) <==> m in multiset(b);
    }
  }

  /**
   The sorted copy.  Assigning a member named __proto__ to the fresh object sets that object's
   prototype and makes no member, so such a member is dropped with the undefined ones.
   */
  function Canonicalize(v: Json, leq: (Text, Text) -> bool): Json
    decreases v, 1
  {
    match v
    case Array(elements) => Array(CanonicalizeAll(elements, leq))
    case Object(members) =>
      SameMembers(Sort(members, leq), members);
      Object(CanonicalMembers(v, Sort(members, leq), leq))
    case _ => v
  }

  function CanonicalizeAll(es: seq<Json>, leq: (Text, Text) -> bool): (r: seq<Json>)
    ensures |r| == |es|
    decreases es, 0
  {
    if es == [] then [] else [Canonicalize(es[0], leq)] + CanonicalizeAll(es[1..], leq)
  }

  predicate Kept(m: Member) {
    !m.value.Undefined? && m.key != PROTO
  }

  function CanonicalMembers(source: Json, ms: seq<Member>, leq: (Text, Text) -> bool): seq<Member>
    requires source.Object? && forall m | m in ms :: m in source.members
    decreases source, 0, |ms|
  {
    if ms == [] then []
    else
      assert ms[0] in source.members;
      (if Kept(ms[0]) then [Member(ms[0].key, Canonicalize(ms[0].value, leq))] else [])
      + CanonicalMembers(source, ms[1..], leq)
  }

  // ---------- The text ----------

  predicate Lead(u: CodeUnit) {
    0xD800 <= u <= 0xDBFF
  }

  predicate Trail(u: CodeUnit) {
    0xDC00 <= u <= 0xDFFF
  }

  /** The unit at i is half of a pair whose other half is not there. */
  predicate Lone(s: Text, i: nat)
    requires i < |s|
  {
    || (Lead(s[i]) && !(i + 1 < |s| && Trail(s[i + 1])))
    || (Trail(s[i]) && !(i > 0 && Lead(s[i - 1])))
  }

  function Hex(n: int): CodeUnit
    requires 0 <= n < 16
  {
    if n < 10 then 0x30 + n else 0x61 + n - 10
  }

  function UnicodeEscape(u: CodeUnit): Text {
    [BACKSLASH, SMALL_U, Hex(u / 0x1000), Hex(u / 0x100 % 16), Hex(u / 0x10 % 16), Hex(u % 16)]
  }

  /** The letter of a two-unit escape, when the unit has one. */
  function ShortEscape(u: CodeUnit): (letter: CodeUnit)
    ensures letter != SMALL_U
  {
    if u == QUOTE || u == BACKSLASH then u
    else if u == 8 then 0x62
    else if u == 9 then 0x74
    else if u == 10 then 0x6E
    else if u == 12 then 0x66
    else if u == 13 then 0x72
    else 0
  }

  function Encode(s: Text, i: nat): (t: Text)
    requires i < |s|
    ensures t != []
  {
    var u := s[i];
    if ShortEscape(u) != 0 then [BACKSLASH, ShortEscape(u)]
    else if u < 0x20 || Lone(s, i) then UnicodeEscape(u)
    else [u]
  }

  function Body(s: Text, i: nat): Text
    requires i <= |s|
    decreases |s| - i
  {
    if i == |s| then [QUOTE] else Encode(s, i) + Body(s, i + 1)
  }

  function Quoted(s: Text): Text {
    [QUOTE] + Body(s, 0)
  }

  function Separator(first: bool): Text {
    if first then [] else [COMMA]
  }

  /** JSON.stringify of a value nested in another, where undefined is written null. */
  function Stringify(v: Json): Text
    decreases v, 1
  {
    match v
    case Undefined => NULL_TEXT
    case Null => NULL_TEXT
    case Bool(b) => if b then TRUE_TEXT else FALSE_TEXT
    case Number(digits) => digits
    case String(text) => Quoted(text)
    case Array(elements) => [OPEN_ARRAY] + Elements(elements, true)
    case Object(members) => [OPEN_OBJECT] + Members(members, true)
  }

  function Elements(es: seq<Json>, first: bool): Text
    decreases es, 0
  {
    if es == [] then [CLOSE_ARRAY]
    else Separator(first) + (Stringify(es[0]) + Elements(es[1..], false))
  }

  function Members(ms: seq<Member>, first: bool): Text
    decreases ms, 0
  {
    if ms == [] then [CLOSE_OBJECT]
    else Separator(first) + (Quoted(ms[0].key) + ([COLON] + (Stringify(ms[0].value) + Members(ms[1..], false))))
  }

  /** The text of a value that is not undefined, and what stands for it inside another value. */
  function CanonicalText(v: Json, leq: (Text, Text) -> bool): Text {
    Stringify(Canonicalize(v, leq))
  }

  /** canonicalJson: a value that is undefined itself has no text at all. */
  function JsonText(v: Json, leq: (Text, Text) -> bool): Option<Text> {
    if v.Undefined? then None else Some(CanonicalText(v, leq))
  }

  // ---------- Canonicalizing keeps the meaning ----------

  const CODE_DROPS := {PROTO}

  predicate Matters(m: Member, dropped: set<Text>) {
    m.key !in dropped && !m.value.Undefined?
  }

  lemma {:induction false} FieldsLookup(ms: seq<Member>, m: Member, dropped: set<Text>)
    requires DistinctKeys(ms) && m in ms && Matters(m, dropped)
    ensures m.key in Fields(ms, dropped) && Fields(ms, dropped)[m.key] == Meaning(m.value, dropped)
  {
    var i :| 0 <= i < |ms| && ms[i] == m;
    if i > 0 {
      assert m == ms[1..][i - 1];
      FieldsLookup(ms[1..], m, dropped);
      assert ms[0].key != ms[i].key;
    }
  }

  lemma {:induction false} FieldsComeFromMembers(ms: seq<Member>, k: Text, dropped: set<Text>) returns (m: Member)
    requires k in Fields(ms, dropped)
    ensures m in ms && m.key == k && Matters(m, dropped)
  {
    if k == ms[0].key && Matters(ms[0], dropped) {
      m := ms[0];
    } else {
      m := FieldsComeFromMembers(ms[1..], k, dropped);
    }
  }

  lemma FieldsOfSameMembers(a: seq<Member>, b: seq<Member>, dropped: set<Text>)
    requires DistinctKeys(a) && DistinctKeys(b)
    requires forall m :: m in a <==> m in b
    ensures Fields(a, dropped) == Fields(b, dropped)
  {
    forall k | k in Fields(a, dropped)
      ensures k in Fields(b, dropped) && Fields(a, dropped)[k] == Fields(b, dropped)[k]
    {
      var m := FieldsComeFromMembers(a, k, dropped);
      FieldsLookup(a, m, dropped);
      FieldsLookup(b, m, dropped);
    }
    forall k | k in Fields(b, dropped)
      ensures k in Fields(a, dropped)
    {
      var m := FieldsComeFromMembers(b, k, dropped);
      FieldsLookup(a, m, dropped);
    }
  }

  /** Each key is strictly before every later one. */
  ghost predicate StrictlySorted(ms: seq<Member>, leq: (Text, Text) -> bool) {
    forall i, j | 0 <= i < j < |ms| :: leq(ms[i].key, ms[j].key) && ms[i].key != ms[j].key
  }

  lemma LaterKeysFollow(ms: seq<Member>, leq: (Text, Text) -> bool)
    requires StrictlySorted(ms, leq) && ms != []
    ensures forall m | m in ms[1..] :: leq(ms[0].key, m.key) && ms[0].key != m.key
  {
    forall m | m in ms[1..]
      ensures leq(ms[0].key, m.key) && ms[0].key != m.key
    {
      var i :| 0 <= i < |ms[1..]| && ms[1..][i] == m;
      assert ms[i + 1] == m;
    }
  }

  lemma {:induction false} InsertSorts(m: Member, ms: seq<Member>, leq: (Text, Text) -> bool)
    requires TotalOrder(leq) && StrictlySorted(ms, leq)
    requires forall x | x in ms :: x.key != m.key
    ensures StrictlySorted(Insert(m, ms, leq), leq)
  {
    if ms != [] && !leq(m.key, ms[0].key) {
      assert forall x | x in ms[1..] :: x in ms;
      InsertSorts(m, ms[1..], leq);
      var r := Insert(m, ms[1..], leq);
      SameMembers(r, ms[1..] + [m]);
      forall j | 0 <= j < |r|
        ensures leq(ms[0].key, r[j].key) && ms[0].key != r[j].key
      {
        assert r[j] in r;
        if r[j] != m {
          assert r[j] in ms[1..];
        }
      }
    }
  }

  lemma {:induction false} SortSorts(ms: seq<Member>, leq: (Text, Text) -> bool)
    requires TotalOrder(leq) && DistinctKeys(ms)
    ensures StrictlySorted(Sort(ms, leq), leq)
  {
    if ms != [] {
      SortSorts(ms[1..], leq);
      SameMembers(Sort(ms[1..], leq), ms[1..]);
      forall x | x in Sort(ms[1..], leq)
        ensures x.key != ms[0].key
      {
        assert x in ms[1..];
      }
      InsertSorts(ms[0], Sort(ms[1..], leq), leq);
    }
  }

  ghost predicate Canonical(v: Json, leq: (Text, Text) -> bool) {
    match v
    case Number(digits) => NumberText(digits)
    case Array(elements) => forall e | e in elements :: Canonical(e, leq)
    case Object(members) =>
      StrictlySorted(members, leq) && forall m | m in members :: Kept(m) && Canonical(m.value, leq)
    case _ => true
  }

  lemma {:induction false} CanonicalizeWorks(v: Json, leq: (Text, Text) -> bool)
    requires TotalOrder(leq) && WellFormed(v)
    ensures Canonical(Canonicalize(v, leq), leq)
    ensures Meaning(Canonicalize(v, leq), CODE_DROPS) == Meaning(v, CODE_DROPS)
    ensures Canonicalize(v, leq).Undefined? == v.Undefined?
    decreases v, 1
  {
    match v
    case Array(elements) =>
      CanonicalizeAllWorks(elements, leq);
    case Object(members) =>
      var sorted := Sort(members, leq);
      SameMembers(sorted, members);
      SortSorts(members, leq);
      CanonicalMembersWork(v, sorted, leq);
      FieldsOfSameMembers(sorted, members, CODE_DROPS);
    case _ =>
  }

  lemma {:induction false} CanonicalizeAllWorks(es: seq<Json>, leq: (Text, Text) -> bool)
    requires TotalOrder(leq) && forall e | e in es :: WellFormed(e)
    ensures forall e | e in CanonicalizeAll(es, leq) :: Canonical(e, leq)
    ensures MeaningOfAll(CanonicalizeAll(es, leq), CODE_DROPS) == MeaningOfAll(es, CODE_DROPS)
    decreases es, 0
  {
    if es != [] {
      CanonicalizeWorks(es[0], leq);
      CanonicalizeAllWorks(es[1..], leq);
    }
  }

  lemma {:induction false} CanonicalMembersWork(source: Json, ms: seq<Member>, leq: (Text, Text) -> bool)
    requires TotalOrder(leq) && source.Object? && WellFormed(source)
    requires forall m | m in ms :: m in source.members
    requires StrictlySorted(ms, leq)
    ensures CanonicalMemberList(CanonicalMembers(source, ms, leq), leq)
    ensures KeysFrom(CanonicalMembers(source, ms, leq), ms)
    ensures Fields(CanonicalMembers(source, ms, leq), CODE_DROPS) == Fields(ms, CODE_DROPS)
    decreases source, 0, |ms|
  {
    if ms != [] {
      assert ms[0] in source.members;
      CanonicalizeWorks(ms[0].value, leq);
      CanonicalMembersWork(source, ms[1..], leq);
      var rest := CanonicalMembers(source, ms[1..], leq);
      if Kept(ms[0]) {
        PrependMember(ms, Canonicalize(ms[0].value, leq), rest, leq);
      } else {
        assert [] + rest == rest;
      }
    }
  }

  ghost predicate CanonicalMemberList(ms: seq<Member>, leq: (Text, Text) -> bool) {
    StrictlySorted(ms, leq) && forall m | m in ms :: Kept(m) && Canonical(m.value, leq)
  }

  ghost predicate KeysFrom(r: seq<Member>, ms: seq<Member>) {
    forall m | m in r :: exists x :: x in ms && x.key == m.key
  }

  lemma PrependMember(ms: seq<Member>, value: Json, rest: seq<Member>, leq: (Text, Text) -> bool)
    requires ms != [] && StrictlySorted(ms, leq) && Kept(ms[0])
    requires Canonical(value, leq) && !value.Undefined?
             && Meaning(value, CODE_DROPS) == Meaning(ms[0].value, CODE_DROPS)
    requires CanonicalMemberList(rest, leq) && KeysFrom(rest, ms[1..])
    requires Fields(rest, CODE_DROPS) == Fields(ms[1..], CODE_DROPS)
    ensures var r := [Member(ms[0].key, value)] + rest;
            CanonicalMemberList(r, leq) && KeysFrom(r, ms) && Fields(r, CODE_DROPS) == Fields(ms, CODE_DROPS)
  {
    PrependSorts(ms, value, rest, leq);
    hide Canonical, CanonicalMemberList, KeysFrom, StrictlySorted;
    assert ([Member(ms[0].key, value)] + rest)[1..] == rest;
  }

  lemma PrependSorts(ms: seq<Member>, value: Json, rest: seq<Member>, leq: (Text, Text) -> bool)
    requires ms != [] && StrictlySorted(ms, leq) && Kept(ms[0])
    requires Canonical(value, leq) && !value.Undefined?
    requires CanonicalMemberList(rest, leq) && KeysFrom(rest, ms[1..])
    ensures var r := [Member(ms[0].key, value)] + rest; CanonicalMemberList(r, leq) && KeysFrom(r, ms)
  {
    hide Canonical;
    var r := [Member(ms[0].key, value)] + rest;
    LaterKeysFollow(ms, leq);
    forall m | m in rest
      ensures leq(ms[0].key, m.key) && ms[0].key != m.key && exists x :: x in ms && x.key == m.key
    {
      var x :| x in ms[1..] && x.key == m.key;
      assert x in ms;
    }
    assert ms[0] in ms;
  }

  // ---------- The same meaning has the same text ----------

  lemma {:induction false} SameMeaningSameText(a: Json, b: Json, leq: (Text, Text) -> bool)
    requires TotalOrder(leq) && Canonical(a, leq) && Canonical(b, leq)
    requires Meaning(a, CODE_DROPS) == Meaning(b, CODE_DROPS)
    ensures Stringify(a) == Stringify(b)
    decreases a, 1
  {
    if a.Array? && b.Array? {
      SameItemsSameText(a.elements, b.elements, true, leq);
    } else if a.Object? && b.Object? {
      SameFieldsSameText(a.members, b.members, true, leq);
    }
  }

  lemma {:induction false} SameItemsSameText(a: seq<Json>, b: seq<Json>, first: bool, leq: (Text, Text) -> bool)
    requires TotalOrder(leq) && (forall e | e in a :: Canonical(e, leq)) && (forall e | e in b :: Canonical(e, leq))
    requires MeaningOfAll(a, CODE_DROPS) == MeaningOfAll(b, CODE_DROPS)
    ensures Elements(a, first) == Elements(b, first)
    decreases a, 0
  {
    if a != [] {
      assert MeaningOfAll(a, CODE_DROPS)[0] == MeaningOfAll(b, CODE_DROPS)[0];
      assert MeaningOfAll(a, CODE_DROPS)[1..] == MeaningOfAll(b, CODE_DROPS)[1..];
      SameMeaningSameText(a[0], b[0], leq);
      SameItemsSameText(a[1..], b[1..], false, leq);
    }
  }

  /** The first member of a canonical list is the least key, and the rest are the other fields. */
  lemma LeastField(ms: seq<Member>, leq: (Text, Text) -> bool)
    requires StrictlySorted(ms, leq) && ms != [] && Kept(ms[0])
    ensures var fields, k := Fields(ms, CODE_DROPS), ms[0].key;
            && k in fields && fields[k] == Meaning(ms[0].value, CODE_DROPS)
            && (forall x | x in fields :: x == k || leq(k, x))
            && Fields(ms[1..], CODE_DROPS) == fields - {k}
  {
    LaterKeysFollow(ms, leq);
    LaterFieldsFollow(ms[1..], ms[0].key, leq);
  }

  lemma LaterFieldsFollow(ms: seq<Member>, k: Text, leq: (Text, Text) -> bool)
    requires forall m | m in ms :: leq(k, m.key) && k != m.key
    ensures forall x | x in Fields(ms, CODE_DROPS) :: leq(k, x) && k != x
  {
    forall x | x in Fields(ms, CODE_DROPS)
      ensures leq(k, x) && k != x
    {
      var m := FieldsComeFromMembers(ms, x, CODE_DROPS);
    }
  }

  lemma KeptFieldsShow(ms: seq<Member>)
    requires forall m | m in ms :: Kept(m)
    ensures Fields(ms, CODE_DROPS) == map[] <==> ms == []
  {
    if ms != [] {
      assert Kept(ms[0]);
      assert ms[0].key in Fields(ms, CODE_DROPS);
    }
  }

  lemma {:induction false} SameFieldsSameText(a: seq<Member>, b: seq<Member>, first: bool, leq: (Text, Text) -> bool)
    requires TotalOrder(leq) && CanonicalMemberList(a, leq) && CanonicalMemberList(b, leq)
    requires Fields(a, CODE_DROPS) == Fields(b, CODE_DROPS)
    ensures Members(a, first) == Members(b, first)
    decreases a, 0
  {
    if a == [] || b == [] {
      KeptFieldsShow(a);
      KeptFieldsShow(b);
    } else {
      assert a[0] in a && b[0] in b;
      LeastField(a, leq);
      LeastField(b, leq);
      assert a[0].key == b[0].key;
      SameMeaningSameText(a[0].value, b[0].value, leq);
      SameFieldsSameText(a[1..], b[1..], false, leq);
    }
  }

  // ---------- The same text has the same meaning ----------

  lemma StripPrefix(p: Text, a: Text, b: Text)
    requires p + a == p + b
    ensures a == b
  {
    assert (p + a)[|p|..] == a;
    assert (p + b)[|p|..] == b;
  }

  function HexValue(h: CodeUnit): int {
    if h < 0x61 then h - 0x30 else h - 0x61 + 10
  }

  lemma HexRoundTrips(n: int)
    requires 0 <= n < 16
    ensures HexValue(Hex(n)) == n
  {
  }

  lemma HexDigits(u: CodeUnit)
    ensures u == u / 0x1000 * 0x1000 + u / 0x100 % 16 * 0x100 + u / 0x10 % 16 * 0x10 + u % 16
    ensures 0 <= u / 0x1000 < 16
  {
    assert u / 0x100 == u / 0x1000 * 16 + u / 0x100 % 16;
    assert u / 0x10 == u / 0x100 * 16 + u / 0x10 % 16;
  }

  function Spelled(e: Text): int
    requires |e| == 6
  {
    HexValue(e[2]) * 0x1000 + HexValue(e[3]) * 0x100 + HexValue(e[4]) * 0x10 + HexValue(e[5])
  }

  /** The four digits of an escape spell the unit. */
  lemma UnicodeEscapeReads(u: CodeUnit)
    ensures Spelled(UnicodeEscape(u)) == u
  {
    HexDigits(u);
    HexRoundTrips(u / 0x1000);
    HexRoundTrips(u / 0x100 % 16);
    HexRoundTrips(u / 0x10 % 16);
    HexRoundTrips(u % 16);
  }

  lemma EscapesAreInjective(u: CodeUnit, w: CodeUnit)
    ensures UnicodeEscape(u) == UnicodeEscape(w) ==> u == w
    ensures ShortEscape(u) == ShortEscape(w) != 0 ==> u == w
  {
    UnicodeEscapeReads(u);
    UnicodeEscapeReads(w);
  }

  /** What one unit is encoded as decides the unit, whatever follows. */
  lemma EncodeIsDecodable(s: Text, t: Text, i: nat, x: Text, y: Text)
    requires i < |s| && i < |t| && Encode(s, i) + x == Encode(t, i) + y
    ensures s[i] == t[i] && x == y
  {
    var p, q := Encode(s, i), Encode(t, i);
    assert (p + x)[0] == p[0] && (q + y)[0] == q[0];
    if |p| > 1 && |q| > 1 {
      assert (p + x)[1] == p[1] && (q + y)[1] == q[1];
      assert |p| == |q|;
    }
    assert |p| == |q|;
    assert p == (p + x)[..|p|] == (q + y)[..|q|] == q;
    EscapesAreInjective(s[i], t[i]);
    StripPrefix(p, x, y);
  }

  lemma BodyHead(s: Text, i: nat, r: Text)
    requires i <= |s|
    ensures Body(s, i) + r != [] && ((Body(s, i) + r)[0] == QUOTE <==> i == |s|)
  {
    if i < |s| {
      assert (Body(s, i) + r)[0] == Encode(s, i)[0];
    }
  }

  lemma {:induction false} BodyIsInjective(s: Text, t: Text, i: nat, r: Text, r': Text)
    requires i <= |s| && i <= |t| && s[..i] == t[..i]
    requires Body(s, i) + r == Body(t, i) + r'
    ensures s == t && r == r'
    decreases |s| - i
  {
    hide Encode;
    BodyHead(s, i, r);
    BodyHead(t, i, r');
    if i == |s| && i == |t| {
      assert s[..i] == s && t[..i] == t;
      StripPrefix([QUOTE], r, r');
    } else if i < |s| && i < |t| {
      assert Body(s, i) + r == Encode(s, i) + (Body(s, i + 1) + r);
      assert Body(t, i) + r' == Encode(t, i) + (Body(t, i + 1) + r');
      EncodeIsDecodable(s, t, i, Body(s, i + 1) + r, Body(t, i + 1) + r');
      assert s[..i + 1] == s[..i] + [s[i]] && t[..i + 1] == t[..i] + [t[i]];
      BodyIsInjective(s, t, i + 1, r, r');
    } else {
      assert false;
    }
  }

  lemma QuotedIsInjective(s: Text, t: Text, r: Text, r': Text)
    requires Quoted(s) + r == Quoted(t) + r'
    ensures s == t && r == r'
  {
    assert Quoted(s) + r == [QUOTE] + (Body(s, 0) + r);
    assert Quoted(t) + r' == [QUOTE] + (Body(t, 0) + r');
    StripPrefix([QUOTE], Body(s, 0) + r, Body(t, 0) + r');
    BodyIsInjective(s, t, 0, r, r');
  }

  /** What may follow a value: nothing, or a unit no number has. */
  predicate Ends(r: Text) {
    r == [] || !NumberUnit(r[0])
  }

  lemma NumberGoesOn(d: Text, e: Text, r: Text, r': Text)
    requires NumberText(e) && |d| < |e| && d + r == e + r'
    ensures r != [] && NumberUnit(r[0])
  {
    assert (d + r)[|d|] == (e + r')[|d|] == e[|d|];
  }

  lemma NumbersAreInjective(d: Text, e: Text, r: Text, r': Text)
    requires NumberText(d) && NumberText(e) && Ends(r) && Ends(r') && d + r == e + r'
    ensures d == e && r == r'
  {
    if |d| < |e| {
      NumberGoesOn(d, e, r, r');
    } else if |e| < |d| {
      NumberGoesOn(e, d, r', r);
    }
    assert d == (d + r)[..|d|] == (e + r')[..|d|];
    StripPrefix(d, r, r');
  }

  /** The first unit of a text tells which kind of value it is, and never closes or separates. */
  lemma Heads(v: Json, leq: (Text, Text) -> bool)
    requires Canonical(v, leq)
    ensures var t := Stringify(v);
            && t != []
            && (v.Undefined? || v.Null? <==> t[0] == 0x6E)
            && (v.Bool? <==> t[0] == (if v.Bool? && v.b then 0x74 else 0x66))
            && (v.Number? <==> NumberUnit(t[0]))
            && (v.String? <==> t[0] == QUOTE)
            && (v.Array? <==> t[0] == OPEN_ARRAY)
            && (v.Object? <==> t[0] == OPEN_OBJECT)
            && t[0] != CLOSE_ARRAY && t[0] != COMMA
  {
  }

  ghost predicate SameMeaning(a: Json, b: Json) {
    Meaning(a, CODE_DROPS) == Meaning(b, CODE_DROPS)
  }

  lemma ArrayText(es: seq<Json>, r: Text)
    ensures Stringify(Array(es)) + r == [OPEN_ARRAY] + (Elements(es, true) + r)
  {
  }

  lemma ObjectText(ms: seq<Member>, r: Text)
    ensures Stringify(Object(ms)) + r == [OPEN_OBJECT] + (Members(ms, true) + r)
  {
  }

  lemma {:induction false} StringifyIsInjective(a: Json, b: Json, r: Text, r': Text, leq: (Text, Text) -> bool)
    requires Canonical(a, leq) && Canonical(b, leq) && Ends(r) && Ends(r')
    requires Stringify(a) + r == Stringify(b) + r'
    ensures SameMeaning(a, b) && r == r'
    decreases a, 1
  {
    Heads(a, leq);
    Heads(b, leq);
    assert Stringify(a)[0] == (Stringify(a) + r)[0] == (Stringify(b) + r')[0] == Stringify(b)[0];
    match a
    case Number(digits) =>
      NumbersAreInjective(digits, b.digits, r, r');
    case String(text) =>
      QuotedIsInjective(text, b.text, r, r');
    case Array(elements) =>
      ArrayText(elements, r);
      ArrayText(b.elements, r');
      StripPrefix([OPEN_ARRAY], Elements(elements, true) + r, Elements(b.elements, true) + r');
      ElementsAreInjective(elements, b.elements, true, r, r', leq);
    case Object(members) =>
      ObjectText(members, r);
      ObjectText(b.members, r');
      StripPrefix([OPEN_OBJECT], Members(members, true) + r, Members(b.members, true) + r');
      MembersAreInjective(members, b.members, true, r, r', leq);
    case _ =>
      StripPrefix(Stringify(a), r, r');
  }

  /** Whether a list text goes on: it closes at once, or does not start with a closing unit. */
  lemma ElementsHead(es: seq<Json>, first: bool, r: Text, leq: (Text, Text) -> bool)
    requires forall e | e in es :: Canonical(e, leq)
    ensures var t := Elements(es, first) + r;
            t != [] && (t[0] == CLOSE_ARRAY <==> es == [])
  {
    if es != [] {
      assert es[0] in es;
      Heads(es[0], leq);
    }
  }

  lemma {:induction false} ElementsAreInjective(a: seq<Json>, b: seq<Json>, first: bool, r: Text, r': Text,
                                                leq: (Text, Text) -> bool)
    requires (forall e | e in a :: Canonical(e, leq)) && (forall e | e in b :: Canonical(e, leq))
    requires Elements(a, first) + r == Elements(b, first) + r'
    ensures MeaningOfAll(a, CODE_DROPS) == MeaningOfAll(b, CODE_DROPS) && r == r'
    decreases a, 0
  {
    ElementsHead(a, first, r, leq);
    ElementsHead(b, first, r', leq);
    if a == [] {
      StripPrefix([CLOSE_ARRAY], r, r');
    } else {
      var x, y := Elements(a[1..], false) + r, Elements(b[1..], false) + r';
      assert Elements(a, first) + r == Separator(first) + (Stringify(a[0]) + x);
      assert Elements(b, first) + r' == Separator(first) + (Stringify(b[0]) + y);
      StripPrefix(Separator(first), Stringify(a[0]) + x, Stringify(b[0]) + y);
      StringifyIsInjective(a[0], b[0], x, y, leq);
      ElementsAreInjective(a[1..], b[1..], false, r, r', leq);
    }
  }

  lemma MembersHead(ms: seq<Member>, first: bool, r: Text)
    ensures var t := Members(ms, first) + r;
            t != [] && (t[0] == CLOSE_OBJECT <==> ms == []) && !NumberUnit(t[0])
  {
  }

  lemma {:induction false} MembersAreInjective(a: seq<Member>, b: seq<Member>, first: bool, r: Text, r': Text,
                                               leq: (Text, Text) -> bool)
    requires forall m | m in a :: Kept(m) && Canonical(m.value, leq)
    requires forall m | m in b :: Kept(m) && Canonical(m.value, leq)
    requires Members(a, first) + r == Members(b, first) + r'
    ensures Fields(a, CODE_DROPS) == Fields(b, CODE_DROPS) && r == r'
    decreases a, 0
  {
    MembersHead(a, first, r);
    MembersHead(b, first, r');
    if a == [] {
      StripPrefix([CLOSE_OBJECT], r, r');
    } else {
      var x, y := Members(a[1..], false) + r, Members(b[1..], false) + r';
      MemberText(a, first, r);
      MemberText(b, first, r');
      var u, w := [COLON] + (Stringify(a[0].value) + x), [COLON] + (Stringify(b[0].value) + y);
      StripPrefix(Separator(first), Quoted(a[0].key) + u, Quoted(b[0].key) + w);
      QuotedIsInjective(a[0].key, b[0].key, u, w);
      StripPrefix([COLON], Stringify(a[0].value) + x, Stringify(b[0].value) + y);
      MembersHead(a[1..], false, r);
      MembersHead(b[1..], false, r');
      StringifyIsInjective(a[0].value, b[0].value, x, y, leq);
      MembersAreInjective(a[1..], b[1..], false, r, r', leq);
    }
  }

  lemma MemberText(ms: seq<Member>, first: bool, r: Text)
    requires ms != []
    ensures Members(ms, first) + r ==
            Separator(first) + (Quoted(ms[0].key)
              + ([COLON] + (Stringify(ms[0].value) + (Members(ms[1..], false) + r))))
  {
    hide Separator, Quoted, Stringify;
    FiveParts(Separator(first), Quoted(ms[0].key), [COLON], Stringify(ms[0].value), Members(ms[1..], false), r);
  }

  lemma FiveParts(a: Text, b: Text, c: Text, d: Text, e: Text, r: Text)
    ensures (a + (b + (c + (d + e)))) + r == a + (b + (c + (d + (e + r))))
  {
    Regroup(d, e, r);
    Regroup(c, d + e, r);
    Regroup(b, c + (d + e), r);
    Regroup(a, b + (c + (d + e)), r);
  }

  lemma SameNestedTextExactly(a: Json, b: Json, leq: (Text, Text) -> bool)
    requires TotalOrder(leq) && WellFormed(a) && WellFormed(b)
    ensures CanonicalText(a, leq) == CanonicalText(b, leq) <==> SameMeaning(a, b)
  {
    CanonicalizeWorks(a, leq);
    CanonicalizeWorks(b, leq);
    var c, d := Canonicalize(a, leq), Canonicalize(b, leq);
    if Stringify(c) == Stringify(d) {
      StringifyIsInjective(c, d, [], [], leq);
    }
    if SameMeaning(a, b) {
      SameMeaningSameText(c, d, leq);
    }
  }

  /**
   Two values have the same canonical text exactly when they mean the same: when both are
   undefined or neither is, and they agree up to member order, undefined members, undefined
   elements read as null, and members named __proto__.
   */
  lemma SameTextExactly(a: Json, b: Json, leq: (Text, Text) -> bool)
    requires TotalOrder(leq) && WellFormed(a) && WellFormed(b)
    ensures JsonText(a, leq) == JsonText(b, leq) <==> a.Undefined? == b.Undefined? && SameMeaning(a, b)
  {
    SameNestedTextExactly(a, b, leq);
  }

  // ---------- The member that is lost ----------

  ghost predicate HasNoProto(v: Json) {
    match v
    case Array(elements) => forall e | e in elements :: HasNoProto(e)
    case Object(members) => forall m | m in members :: m.key != PROTO && HasNoProto(m.value)
    case _ => true
  }

  lemma {:induction false} NothingIsLost(v: Json)
    requires HasNoProto(v)
    ensures Meaning(v, CODE_DROPS) == Meaning(v, {})
    decreases v, 1
  {
    match v
    case Array(elements) => NoElementIsLost(elements);
    case Object(members) => NoFieldIsLost(members);
    case _ =>
  }

  lemma {:induction false} NoElementIsLost(es: seq<Json>)
    requires forall e | e in es :: HasNoProto(e)
    ensures MeaningOfAll(es, CODE_DROPS) == MeaningOfAll(es, {})
    decreases es, 0
  {
    if es != [] {
      NothingIsLost(es[0]);
      NoElementIsLost(es[1..]);
    }
  }

  lemma {:induction false} NoFieldIsLost(ms: seq<Member>)
    requires forall m | m in ms :: m.key != PROTO && HasNoProto(m.value)
    ensures Fields(ms, CODE_DROPS) == Fields(ms, {})
    decreases ms, 0
  {
    if ms != [] {
      assert ms[0] in ms;
      NothingIsLost(ms[0].value);
      NoFieldIsLost(ms[1..]);
    }
  }

  /** Without a member named __proto__ anywhere the text is injective on what JSON itself says. */
  lemma InjectiveWithoutProto(a: Json, b: Json, leq: (Text, Text) -> bool)
    requires TotalOrder(leq) && WellFormed(a) && WellFormed(b) && HasNoProto(a) && HasNoProto(b)
    ensures JsonText(a, leq) == JsonText(b, leq) <==> a.Undefined? == b.Undefined? && Meaning(a, {}) == Meaning(b, {})
  {
    SameTextExactly(a, b, leq);
    NothingIsLost(a);
    NothingIsLost(b);
  }

  /** With one it is not: {"__proto__": v} and {} are different JSON with one text. */
  lemma ProtoMemberIsLost(v: Json, leq: (Text, Text) -> bool)
    requires TotalOrder(leq) && WellFormed(v) && !v.Undefined?
    ensures var a, b := Object([Member(PROTO, v)]), Object([]);
            JsonText(a, leq).Some? && JsonText(a, leq) == JsonText(b, leq) && Meaning(a, {}) != Meaning(b, {})
  {
    var a, b := Object([Member(PROTO, v)]), Object([]);
    assert Fields([], CODE_DROPS) == map[] == Fields(a.members[1..], CODE_DROPS);
    assert SameMeaning(a, b);
    SameTextExactly(a, b, leq);
    assert a.members[0] in a.members && PROTO in Fields(a.members, {});
  }

  // ---------- The copy as the program makes it ----------

  method CanonicalizeByLoop(v: Json, leq: (Text, Text) -> bool) returns (c: Json)
    ensures c == Canonicalize(v, leq)
    decreases v, 1
  {
    match v {
      case Array(elements) =>
        var copied := CopyElements(elements, leq);
        c := Array(copied);
      case Object(_) =>
        var copied := CopyMembers(v, leq);
        c := Object(copied);
      case _ =>
        c := v;
    }
  }

  method CopyElements(elements: seq<Json>, leq: (Text, Text) -> bool) returns (copied: seq<Json>)
    ensures copied == CanonicalizeAll(elements, leq)
    decreases elements, 0
  {
    copied := [];
    for i := 0 to |elements|
      invariant copied + CanonicalizeAll(elements[i..], leq) == CanonicalizeAll(elements, leq)
    {
      var element := CanonicalizeByLoop(elements[i], leq);
      assert elements[i..][1..] == elements[i + 1..];
      copied := copied + [element];
    }
  }

  method CopyMembers(source: Json, leq: (Text, Text) -> bool) returns (result: seq<Member>)
    requires source.Object?
    ensures Canonicalize(source, leq) == Object(result)
    decreases source, 0, 1
  {
    var sorted := Sort(source.members, leq);
    SameMembers(sorted, source.members);
    result := [];
    for i := 0 to |sorted|
      invariant result + CanonicalMembers(source, sorted[i..], leq) == CanonicalMembers(source, sorted, leq)
    {
      assert sorted[i] in source.members;
      var copied := CopyMember(source, sorted[i], leq);
      CanonicalMembersFrom(source, sorted, i, leq);
      Regroup(result, copied, CanonicalMembers(source, sorted[i + 1..], leq));
      result := result + copied;
    }
  }

  lemma Regroup<T>(a: seq<T>, b: seq<T>, c: seq<T>)
    ensures a + (b + c) == a + b + c
  {
  }

  lemma CanonicalMembersFrom(source: Json, ms: seq<Member>, i: nat, leq: (Text, Text) -> bool)
    requires source.Object? && i < |ms| && forall m | m in ms :: m in source.members
    ensures CanonicalMembers(source, ms[i..], leq) ==
            (if Kept(ms[i]) then [Member(ms[i].key, Canonicalize(ms[i].value, leq))] else [])
            + CanonicalMembers(source, ms[i + 1..], leq)
  {
    assert ms[i..][1..] == ms[i + 1..];
  }

  method CopyMember(source: Json, entry: Member, leq: (Text, Text) -> bool) returns (copied: seq<Member>)
    requires source.Object? && entry in source.members
    ensures copied == if Kept(entry) then [Member(entry.key, Canonicalize(entry.value, leq))] else []
    decreases source, 0, 0
  {
    copied := [];
    if Kept(entry) {
      var value := CanonicalizeByLoop(entry.value, leq);
      copied := [Member(entry.key, value)];
    }
  }
}
