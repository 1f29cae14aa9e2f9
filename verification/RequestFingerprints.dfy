/** What makes two requests the same request (idempotentRequestFingerprint). */
module RequestFingerprints {
  import opened CanonicalJson
  import opened IdempotentRequests

  datatype Parts = Parts(verb: Text, route: Text, params: Json, body: Json)

  predicate WellFormedParts(p: Parts) {
    WellFormed(p.params) && WellFormed(p.body)
  }

  /** The members method, route, params and body. */
  const METHOD_KEY: Text := [0x6D, 0x65, 0x74, 0x68, 0x6F, 0x64]
  const ROUTE_KEY: Text := [0x72, 0x6F, 0x75, 0x74, 0x65]
  const PARAMS_KEY: Text := [0x70, 0x61, 0x72, 0x61, 0x6D, 0x73]
  const BODY_KEY: Text := [0x62, 0x6F, 0x64, 0x79]

  /** An HTTP method is an ASCII token. */
  function Upper(s: Text): (r: Text)
    ensures |r| == |s|
    ensures forall i | 0 <= i < |s| :: r[i] == UpperUnit(s[i])
  {
    if s == [] then [] else [UpperUnit(s[0])] + Upper(s[1..])
  }

  function UpperUnit(u: CodeUnit): CodeUnit {
    if 0x61 <= u <= 0x7A then u - 0x20 else u
  }

  /** params ?? {} */
  function ParamsOf(p: Parts): Json {
    if p.params.Undefined? || p.params.Null? then Object([]) else p.params
  }

  /** body ?? null */
  function BodyOf(p: Parts): Json {
    if p.body.Undefined? then Null else p.body
  }

  function RequestJson(p: Parts): Json {
    Object([
      Member(METHOD_KEY, String(Upper(p.verb))),
      Member(ROUTE_KEY, String(p.route)),
      Member(PARAMS_KEY, ParamsOf(p)),
      Member(BODY_KEY, BodyOf(p))])
  }

  function RequestText(p: Parts, leq: (Text, Text) -> bool): Text {
    CanonicalText(RequestJson(p), leq)
  }

  /** The same ASCII letter in either case, or the same unit. */
  predicate SameLetter(c: CodeUnit, d: CodeUnit) {
    c == d || (0x61 <= c <= 0x7A && d == c - 0x20) || (0x61 <= d <= 0x7A && c == d - 0x20)
  }

  predicate SameMethod(a: Text, b: Text) {
    |a| == |b| && forall i | 0 <= i < |a| :: SameLetter(a[i], b[i])
  }

  ghost predicate MeansNoParams(v: Json) {
    v.Undefined? || v.Null? || Meaning(v, {PROTO}) == Record(map[])
  }

  /**
   One request: its method up to case, its route, its parameters, of which none at all is the
   empty object, and its body, of which none at all is null.
   */
  ghost predicate SameRequest(p: Parts, q: Parts) {
    && SameMethod(p.verb, q.verb)
    && p.route == q.route
    && (SameMeaning(p.params, q.params) || (MeansNoParams(p.params) && MeansNoParams(q.params)))
    && SameMeaning(p.body, q.body)
  }

  lemma SameMethodExactly(a: Text, b: Text)
    ensures Upper(a) == Upper(b) <==> SameMethod(a, b)
  {
    hide SameLetter, UpperUnit;
    if |a| == |b| {
      forall i | 0 <= i < |a|
        ensures UpperUnit(a[i]) == UpperUnit(b[i]) <==> SameLetter(a[i], b[i])
      {
        SameLetterExactly(a[i], b[i]);
      }
      if Upper(a) == Upper(b) {
        assert forall i | 0 <= i < |a| :: Upper(a)[i] == Upper(b)[i];
      }
    } else {
      assert |Upper(a)| != |Upper(b)|;
    }
  }

  lemma SameLetterExactly(c: CodeUnit, d: CodeUnit)
    ensures UpperUnit(c) == UpperUnit(d) <==> SameLetter(c, d)
  {
  }

  lemma SameParamsExactly(p: Parts, q: Parts)
    ensures SameMeaning(ParamsOf(p), ParamsOf(q)) <==>
            SameMeaning(p.params, q.params) || (MeansNoParams(p.params) && MeansNoParams(q.params))
  {
    assert Meaning(Object([]), CODE_DROPS) == Record(map[]);
    assert CODE_DROPS == {PROTO};
  }

  lemma SameBodyExactly(p: Parts, q: Parts)
    ensures SameMeaning(BodyOf(p), BodyOf(q)) <==> SameMeaning(p.body, q.body)
  {
  }

  lemma FourKeys()
    ensures |{METHOD_KEY, ROUTE_KEY, PARAMS_KEY, BODY_KEY}| == 4
    ensures METHOD_KEY != ROUTE_KEY && METHOD_KEY != PARAMS_KEY && METHOD_KEY != BODY_KEY
    ensures ROUTE_KEY != PARAMS_KEY && ROUTE_KEY != BODY_KEY && PARAMS_KEY != BODY_KEY
    ensures PROTO !in {METHOD_KEY, ROUTE_KEY, PARAMS_KEY, BODY_KEY}
  {
    assert |METHOD_KEY| == |PARAMS_KEY| == 6 && METHOD_KEY[0] != PARAMS_KEY[0];
    assert |ROUTE_KEY| == 5 && |BODY_KEY| == 4 && |PROTO| == 9;
  }

  lemma RequestFields(p: Parts)
    ensures DistinctKeys(RequestJson(p).members)
    ensures Fields(RequestJson(p).members, CODE_DROPS) == map[
              METHOD_KEY := Words(Upper(p.verb)),
              ROUTE_KEY := Words(p.route),
              PARAMS_KEY := Meaning(ParamsOf(p), CODE_DROPS),
              BODY_KEY := Meaning(BodyOf(p), CODE_DROPS)]
  {
    FourKeys();
    var m, r := Member(METHOD_KEY, String(Upper(p.verb))), Member(ROUTE_KEY, String(p.route));
    var a, b := Member(PARAMS_KEY, ParamsOf(p)), Member(BODY_KEY, BodyOf(p));
    FieldsStep(b, []);
    FieldsStep(a, [b]);
    FieldsStep(r, [a, b]);
    FieldsStep(m, [r, a, b]);
    assert [m] + ([r] + ([a] + ([b] + []))) == RequestJson(p).members;
    assert [a] + [b] == [a, b] && [r] + [a, b] == [r, a, b] && [b] + [] == [b];
  }

  lemma FieldsStep(m: Member, ms: seq<Member>)
    requires Matters(m, CODE_DROPS)
    ensures Fields([m] + ms, CODE_DROPS) == Fields(ms, CODE_DROPS)[m.key := Meaning(m.value, CODE_DROPS)]
  {
    assert ([m] + ms)[1..] == ms;
  }

  lemma RequestIsWellFormed(p: Parts)
    requires WellFormedParts(p)
    ensures WellFormed(RequestJson(p))
  {
    RequestFields(p);
    var members := RequestJson(p).members;
    forall m | m in members
      ensures WellFormed(m.value)
    {
      assert m == members[0] || m == members[1] || m == members[2] || m == members[3];
    }
  }

  lemma SameFieldsExactly(p: Parts, q: Parts)
    ensures SameMeaning(RequestJson(p), RequestJson(q)) <==> SameRequest(p, q)
  {
    RequestFields(p);
    RequestFields(q);
    FourKeys();
    SameMethodExactly(p.verb, q.verb);
    SameParamsExactly(p, q);
    SameBodyExactly(p, q);
    var f, g := Fields(RequestJson(p).members, CODE_DROPS), Fields(RequestJson(q).members, CODE_DROPS);
    hide Fields, RequestJson, SameMethod, MeansNoParams, ParamsOf, BodyOf, Upper;
    if f == g {
      assert f[METHOD_KEY] == g[METHOD_KEY] && f[ROUTE_KEY] == g[ROUTE_KEY];
      assert f[PARAMS_KEY] == g[PARAMS_KEY] && f[BODY_KEY] == g[BODY_KEY];
    }
  }

  /** Two requests have one text exactly when they are one request. */
  lemma SameRequestTextExactly(p: Parts, q: Parts, leq: (Text, Text) -> bool)
    requires TotalOrder(leq) && WellFormedParts(p) && WellFormedParts(q)
    ensures RequestText(p, leq) == RequestText(q, leq) <==> SameRequest(p, q)
  {
    RequestIsWellFormed(p);
    RequestIsWellFormed(q);
    hide RequestJson, SameRequest, CanonicalText, SameMeaning, WellFormed, TotalOrder, WellFormedParts;
    SameFieldsExactly(p, q);
    SameNestedTextExactly(RequestJson(p), RequestJson(q), leq);
  }

  /** Digests match exactly when tenant, key version and request do. */
  lemma SameFingerprintExactly(k: Key, l: Key, v: nat, w: nat, p: Parts, q: Parts, leq: (Text, Text) -> bool)
    requires TotalOrder(leq) && WellFormedParts(p) && WellFormedParts(q)
    ensures FingerprintFor(k, v, RequestText(p, leq)) == FingerprintFor(l, w, RequestText(q, leq)) <==>
            k.tenant == l.tenant && v == w && SameRequest(p, q)
  {
    SameRequestTextExactly(p, q, leq);
  }
}
