/**
 The template expression reader of the prototype (prototype/support.js, the expr section):
 a hand-written recursive reader over the source text, with no token stream and no tree.
 */
module Expressions {
  import opened Options

  /**
   The JavaScript operations the reader calls on values: nothing below depends on what they
   are, so every law holds of them whatever the values behind the template are.
   */
  datatype Js<!V> = Js(
    undefinedValue: V,
    nullValue: V,
    ofBool: bool -> V,
    ofString: string -> V,
    ofNumber: string -> V,
    truthy: V -> bool,
    nullish: V -> bool,
    strictlyEqual: (V, V) -> bool,
    looselyEqual: (V, V) -> bool,
    property: (V, string) -> V,
    keyOf: V -> string)

  function Get<V>(js: Js<V>, v: V, name: string): V {
    if js.nullish(v) then js.undefinedValue else js.property(v, name)
  }

  // ---------- Characters, trimming and the three patterns ----------

  /** The spaces that String.prototype.trim removes, but for the plain one, the tab and the line ends. */
  const RARE_SPACES := "\U{00A0}\U{1680}\U{2000}\U{2001}\U{2002}\U{2003}\U{2004}\U{2005}"
    + "\U{2006}\U{2007}\U{2008}\U{2009}\U{200A}\U{2028}\U{2029}\U{202F}\U{205F}\U{3000}\U{FEFF}"

  predicate IsSpace(c: char) {
    c == ' ' || '\t' <= c <= '\r' || (c > '~' && c in RARE_SPACES)
  }

  function Trim(s: string): (t: string)
    ensures |t| <= |s|
    ensures t != "" ==> !IsSpace(t[0]) && !IsSpace(t[|t| - 1])
    ensures s != "" && !IsSpace(s[0]) && !IsSpace(s[|s| - 1]) ==> t == s
  {
    if s == "" then ""
    else if IsSpace(s[0]) then Trim(s[1..])
    else if IsSpace(s[|s| - 1]) then Trim(s[..|s| - 1])
    else s
  }

  predicate IdentStart(c: char) {
    'A' <= c <= 'Z' || 'a' <= c <= 'z' || c == '_' || c == '$'
  }

  predicate Digit(c: char) {
    '0' <= c <= '9'
  }

  predicate IdentPart(c: char) {
    IdentStart(c) || Digit(c)
  }

  /** The end of the longest run of characters satisfying p from i. */
  function RunEnd(s: string, i: nat, p: char -> bool): (e: nat)
    requires i <= |s|
    ensures i <= e <= |s|
    ensures forall k | i <= k < e :: p(s[k])
    ensures e < |s| ==> !p(s[e])
    decreases |s| - i
  {
    if i < |s| && p(s[i]) then RunEnd(s, i + 1, p) else i
  }

  /** The end of what the identifier pattern matches at i; i itself when it does not match. */
  function IdentEnd(s: string, i: nat): (e: nat)
    requires i <= |s|
    ensures i <= e <= |s|
  {
    if i < |s| && IdentStart(s[i]) then RunEnd(s, i + 1, IdentPart) else i
  }

  function DigitsEnd(s: string, i: nat): (e: nat)
    requires i <= |s|
    ensures i <= e <= |s|
  {
    RunEnd(s, i, Digit)
  }

  predicate IsNumber(s: string) {
    var start := if s != "" && s[0] == '-' then 1 else 0;
    var end := DigitsEnd(s, start);
    end > start
    && (end == |s| || (s[end] == '.' && end + 1 < |s| && DigitsEnd(s, end + 1) == |s|))
  }

  // ---------- Nesting ----------

  /** Which brackets count. */
  datatype Kind = Parens | Squares | Both

  function Weight(c: char, kind: Kind): int {
    if (c == '(' && !kind.Squares?) || (c == '[' && !kind.Parens?) then 1
    else if (c == ')' && !kind.Squares?) || (c == ']' && !kind.Parens?) then -1
    else 0
  }

  /** How deep position n is nested. */
  function Depth(s: string, n: nat, kind: Kind): int
    requires n <= |s|
  {
    if n == 0 then 0 else Depth(s, n - 1, kind) + Weight(s[n - 1], kind)
  }

  /** No parenthesis before the last character closes back to the outside. */
  predicate WrapsWhole(s: string) {
    forall i | 0 <= i < |s| - 1 && s[i] == ')' :: Depth(s, i + 1, Parens) != 0
  }

  /** An operator starts at i, outside every bracket; it is not the tail of one, and something precedes it. */
  predicate EqualityAt(s: string, i: nat) {
    && i + 1 < |s|
    && (s[i] == '=' || s[i] == '!') && s[i + 1] == '='
    && Depth(s, i, Both) == 0
    && !(i > 0 && (s[i - 1] == '=' || s[i - 1] == '!'))
    && Trim(s[..i]) != ""
  }

  function FirstEquality(s: string, i: nat): (r: Option<nat>)
    ensures r.Some? ==> i <= r.value && EqualityAt(s, r.value)
    decreases |s| - i
  {
    if i >= |s| then None else if EqualityAt(s, i) then Some(i) else FirstEquality(s, i + 1)
  }

  datatype Op = StrictlyEqual | StrictlyUnequal | LooselyEqual | LooselyUnequal

  function OpText(op: Op): (text: string)
    ensures |text| == if op.StrictlyEqual? || op.StrictlyUnequal? then 3 else 2
  {
    match op
    case StrictlyEqual => "==="
    case StrictlyUnequal => "!=="
    case LooselyEqual => "=="
    case LooselyUnequal => "!="
  }

  function Compare<V>(js: Js<V>, op: Op, l: V, r: V): V {
    match op
    case StrictlyEqual => js.ofBool(js.strictlyEqual(l, r))
    case StrictlyUnequal => js.ofBool(!js.strictlyEqual(l, r))
    case LooselyEqual => js.ofBool(js.looselyEqual(l, r))
    case LooselyUnequal => js.ofBool(!js.looselyEqual(l, r))
  }

  /** Three characters when a third follows, two otherwise. */
  function OperatorAt(s: string, i: nat): (op: Op)
    requires EqualityAt(s, i)
    ensures i + |OpText(op)| <= |s|
  {
    if i + 2 < |s| && s[i + 2] == '=' then
      if s[i] == '=' then StrictlyEqual else StrictlyUnequal
    else
      if s[i] == '=' then LooselyEqual else LooselyUnequal
  }

  /** The longest of the four operators that stands at i, even when nothing follows it. */
  lemma LongestOperatorExactly(s: string, i: nat)
    requires EqualityAt(s, i)
    ensures OperatorAt(s, i).StrictlyEqual? <==> "===" <= s[i..]
    ensures OperatorAt(s, i).StrictlyUnequal? <==> "!==" <= s[i..]
    ensures OperatorAt(s, i).LooselyEqual? <==> "==" <= s[i..] && !("===" <= s[i..])
    ensures OperatorAt(s, i).LooselyUnequal? <==> "!=" <= s[i..] && !("!==" <= s[i..])
  {
    assert s[i..][0] == s[i] && s[i..][1] == s[i + 1];
    assert i + 2 < |s| ==> s[i..][2] == s[i + 2];
  }

  /** The bracket that closes the one at i, looked for from j on. */
  function Closer(s: string, i: nat, j: nat): (r: Option<nat>)
    requires i < j <= |s|
    ensures r.Some? ==> j <= r.value < |s|
    decreases |s| - j
  {
    if j == |s| then None
    else if Depth(s, j + 1, Squares) == Depth(s, i, Squares) then Some(j)
    else Closer(s, i, j + 1)
  }

  // ---------- The reader ----------

  /** What a text that is a word, a number or a quoted string stands for. */
  function Atom<V>(js: Js<V>, s: string): Option<V> {
    if s == "true" then Some(js.ofBool(true))
    else if s == "false" then Some(js.ofBool(false))
    else if s == "null" then Some(js.nullValue)
    else if s == "undefined" then Some(js.undefinedValue)
    else if IsNumber(s) then Some(js.ofNumber(s))
    else if |s| >= 2 && (s[0] == '"' || s[0] == '\'') && s[|s| - 1] == s[0] then Some(js.ofString(s[1..|s| - 1]))
    else None
  }

  /** Which rule of the reader a trimmed text falls under. */
  datatype Shape = Empty | Wrapped | Equated(at: nat, op: Op) | Negated | Simple

  function ShapeOf(s: string): (shape: Shape)
    ensures shape.Wrapped? ==> 2 <= |s|
    ensures shape.Equated? ==> shape.at + |OpText(shape.op)| <= |s|
    ensures shape.Negated? ==> 1 <= |s|
  {
    if s == "" then Empty
    else if s[0] == '(' && s[|s| - 1] == ')' && WrapsWhole(s) then Wrapped
    else
      match FirstEquality(s, 0)
      case Some(i) => Equated(i, OperatorAt(s, i))
      case None => if s[0] == '!' then Negated else Simple
  }

  /** Total on every string, malformed ones included. */
  function Read<V>(js: Js<V>, vals: V, src: string): V
    decreases |src|, 2, 0
  {
    ReadTrimmed(js, vals, Trim(src))
  }

  function ReadTrimmed<V>(js: Js<V>, vals: V, s: string): V
    decreases |s|, 1, 0
  {
    match ShapeOf(s)
    case Empty => js.undefinedValue
    case Wrapped => Read(js, vals, s[1..|s| - 1])
    case Equated(i, op) => Compare(js, op, Read(js, vals, s[..i]), Read(js, vals, s[i + |OpText(op)|..]))
    case Negated => js.ofBool(!js.truthy(Read(js, vals, s[1..])))
    case Simple =>
      match Atom(js, s)
      case Some(v) => v
      case None => ReadPath(js, vals, s)
  }

  function ReadPath<V>(js: Js<V>, vals: V, s: string): V
    decreases |s|, 0, |s| + 1
  {
    var i := IdentEnd(s, 0);
    if i == 0 then js.undefinedValue else Walk(js, vals, s, Get(js, vals, s[..i]), i)
  }

  function Walk<V>(js: Js<V>, vals: V, s: string, cur: V, i: nat): V
    requires i <= |s|
    decreases |s|, 0, |s| - i
  {
    if i == |s| then cur
    else if s[i] == '.' then
      var e := MemberEnd(s, i + 1);
      if e == i + 1 then js.undefinedValue
      else Walk(js, vals, s, Get(js, cur, s[i + 1..e]), e)
    else if s[i] == '[' then
      match Closer(s, i, i + 1)
      case None => js.undefinedValue
      case Some(j) =>
        Walk(js, vals, s, Get(js, cur, KeyBetween(js, vals, s, i, j)), j + 1)
    else js.undefinedValue
  }

  /** The property named by the expression between the brackets at i and j. */
  function KeyBetween<V>(js: Js<V>, vals: V, s: string, i: nat, j: nat): string
    requires i < j < |s|
    decreases |s| - 1, 3, 0
  {
    js.keyOf(Read(js, vals, s[i + 1..j]))
  }

  function MemberEnd(s: string, i: nat): (e: nat)
    requires i <= |s|
    ensures i <= e <= |s|
  {
    if IdentEnd(s, i) > i then IdentEnd(s, i) else DigitsEnd(s, i)
  }

  // ---------- The reader as the program runs it ----------

  method Resolve<V>(js: Js<V>, vals: V, src: string) returns (v: V)
    ensures v == Read(js, vals, src)
    decreases |src|, 1, 0
  {
    hide Compare, Atom, ReadPath, Walk, WrapsWhole, EqualityAt, FirstEquality, OperatorAt, IsSpace;
    var expr := Trim(src);
    var shape := Classify(expr);
    match shape {
      case Empty =>
        v := js.undefinedValue;
      case Wrapped =>
        v := Resolve(js, vals, expr[1..|expr| - 1]);
      case Equated(i, op) =>
        var lv := Resolve(js, vals, expr[..i]);
        var rv := Resolve(js, vals, expr[i + |OpText(op)|..]);
        v := Compare(js, op, lv, rv);
      case Negated =>
        var inner := Resolve(js, vals, expr[1..]);
        v := js.ofBool(!js.truthy(inner));
      case Simple =>
        var atom := Atom(js, expr);
        if atom.Some? {
          v := atom.value;
        } else {
          v := ResolvePath(js, vals, expr);
        }
    }
  }

  /** The tests of resolve down to the leading bang, in its order. */
  method Classify(expr: string) returns (shape: Shape)
    ensures shape == ShapeOf(expr)
  {
    if expr == "" {
      return Empty;
    }
    if expr[0] == '(' && expr[|expr| - 1] == ')' {
      var wraps := ParensWrapWhole(expr);
      if wraps {
        return Wrapped;
      }
    }
    var eq := FindTopLevelEquality(expr);
    if eq.Some? {
      return Equated(eq.value, OperatorAt(expr, eq.value));
    }
    return if expr[0] == '!' then Negated else Simple;
  }

  method ParensWrapWhole(expr: string) returns (wraps: bool)
    requires expr != ""
    ensures wraps == WrapsWhole(expr)
  {
    var depth := 0;
    for i := 0 to |expr| - 1
      invariant depth == Depth(expr, i, Parens)
      invariant forall k | 0 <= k < i && expr[k] == ')' :: Depth(expr, k + 1, Parens) != 0
    {
      if expr[i] == '(' {
        depth := depth + 1;
      } else if expr[i] == ')' {
        depth := depth - 1;
        if depth == 0 {
          return false;
        }
      }
    }
    return true;
  }

  method FindTopLevelEquality(expr: string) returns (index: Option<nat>)
    ensures index == FirstEquality(expr, 0)
  {
    var depth := 0;
    for i := 0 to |expr|
      invariant depth == Depth(expr, i, Both)
      invariant FirstEquality(expr, 0) == FirstEquality(expr, i)
    {
      var c := expr[i];
      if c == '[' || c == '(' {
        depth := depth + 1;
      } else if c == ']' || c == ')' {
        depth := depth - 1;
      } else if depth == 0 && (c == '=' || c == '!') && i + 1 < |expr| && expr[i + 1] == '=' {
        if i > 0 && (expr[i - 1] == '=' || expr[i - 1] == '!') {
          continue;
        }
        if Trim(expr[..i]) == "" {
          continue;
        }
        return Some(i);
      }
    }
    return None;
  }

  /** The scan of resolvePath for the bracket that closes the one at i. */
  method FindCloser(expr: string, i: nat) returns (close: Option<nat>)
    requires i < |expr| && expr[i] == '['
    ensures close == Closer(expr, i, i + 1)
  {
    var depth, j := 1, i + 1;
    while j < |expr| && depth > 0
      invariant i < j <= |expr|
      invariant depth > 0 && depth == Depth(expr, j, Squares) - Depth(expr, i, Squares)
      invariant Closer(expr, i, i + 1) == Closer(expr, i, j)
      decreases |expr| - j
    {
      if expr[j] == '[' {
        depth := depth + 1;
      } else if expr[j] == ']' {
        depth := depth - 1;
        if depth == 0 {
          return Some(j);
        }
      }
      j := j + 1;
    }
    return None;
  }

  method ResolvePath<V>(js: Js<V>, vals: V, expr: string) returns (v: V)
    ensures v == ReadPath(js, vals, expr)
    decreases |expr|, 0, 0
  {
    var i := IdentEnd(expr, 0);
    if i == 0 {
      return js.undefinedValue;
    }
    var cur := Get(js, vals, expr[..i]);
    while i < |expr|
      invariant 0 < i <= |expr|
      invariant ReadPath(js, vals, expr) == Walk(js, vals, expr, cur, i)
    {
      if expr[i] == '.' {
        var e := MemberEnd(expr, i + 1);
        if e == i + 1 {
          return js.undefinedValue;
        }
        cur := Get(js, cur, expr[i + 1..e]);
        i := e;
      } else if expr[i] == '[' {
        var j := FindCloser(expr, i);
        if j.None? {
          return js.undefinedValue;
        }
        var key := Resolve(js, vals, expr[i + 1..j.value]);
        cur := Get(js, cur, js.keyOf(key));
        i := j.value + 1;
      } else {
        return js.undefinedValue;
      }
    }
    return cur;
  }

  // ---------- Trees, what they mean, and how they are printed ----------

  datatype Expr =
    | Constant(word: string)
    | Number(digits: string)
    | Literal(quote: char, text: string)
    | Not(operand: Expr)
    | Equality(op: Op, left: Expr, right: Expr)
    | Name(name: string)
    | Member(base: Expr, name: string)
    | Element(base: Expr, key: Expr)

  const WORDS := {"true", "false", "null", "undefined"}

  predicate Identifier(s: string) {
    s != "" && IdentStart(s[0]) && forall k | 0 <= k < |s| :: IdentPart(s[k])
  }

  predicate Digits(s: string) {
    s != "" && forall k | 0 <= k < |s| :: Digit(s[k])
  }

  /** A character a printed string may hold. */
  predicate Plain(c: char) {
    c != '"' && c != '\'' && !Structural(c)
  }

  predicate IsPath(e: Expr)
    decreases e, 0
  {
    match e
    case Name(name) => Identifier(name)
    case Member(base, name) => IsPath(base) && (Identifier(name) || Digits(name))
    case Element(base, key) => IsPath(base) && Printable(key)
    case _ => false
  }

  predicate Printable(e: Expr)
    decreases e, 1
  {
    match e
    case Constant(word) => word in WORDS
    case Number(digits) => IsNumber(digits)
    case Literal(quote, text) => (quote == '"' || quote == '\'') && forall k | 0 <= k < |text| :: Plain(text[k])
    case Not(operand) => Printable(operand)
    case Equality(_, left, right) => Printable(left) && Printable(right)
    case Name(name) => IsPath(e) && name !in WORDS
    case _ => IsPath(e)
  }

  function Parenthesised(s: string): string {
    Bracketed('(', s, ')')
  }

  function Print(e: Expr): string {
    match e
    case Constant(word) => word
    case Number(digits) => digits
    case Literal(quote, text) => [quote] + text + [quote]
    case Not(operand) => "!" + Parenthesised(Print(operand))
    case Equality(op, left, right) => Parenthesised(Print(left)) + OpText(op) + Parenthesised(Print(right))
    case Name(name) => name
    case Member(base, name) => Print(base) + ("." + name)
    case Element(base, key) => Print(base) + Bracketed('[', Print(key), ']')
  }

  /** What a tree means, with no text in sight. */
  function Eval<V>(js: Js<V>, vals: V, e: Expr): V {
    match e
    case Constant(word) =>
      if word == "true" then js.ofBool(true)
      else if word == "false" then js.ofBool(false)
      else if word == "null" then js.nullValue
      else js.undefinedValue
    case Number(digits) => js.ofNumber(digits)
    case Literal(_, text) => js.ofString(text)
    case Not(operand) => js.ofBool(!js.truthy(Eval(js, vals, operand)))
    case Equality(op, left, right) =>
      var l, r := Eval(js, vals, left), Eval(js, vals, right);
      js.ofBool(match op
                case StrictlyEqual => js.strictlyEqual(l, r)
                case StrictlyUnequal => !js.strictlyEqual(l, r)
                case LooselyEqual => js.looselyEqual(l, r)
                case LooselyUnequal => !js.looselyEqual(l, r))
    case Name(name) =>
      if js.nullish(vals) then js.undefinedValue else js.property(vals, name)
    case Member(base, name) =>
      var b := Eval(js, vals, base);
      if js.nullish(b) then js.undefinedValue else js.property(b, name)
    case Element(base, key) =>
      var b, k := Eval(js, vals, base), Eval(js, vals, key);
      if js.nullish(b) then js.undefinedValue else js.property(b, js.keyOf(k))
  }

  // ---------- What the characters and patterns are, one by one ----------

  /** White space and line terminators (section 22.1.3.32 of ECMA-262, which trim removes). */
  lemma SpacesExactly(c: char)
    ensures IsSpace(c) <==>
            c as int in {9, 10, 11, 12, 13, 32, 0xA0, 0x1680, 0x2000, 0x2001, 0x2002, 0x2003, 0x2004, 0x2005,
                         0x2006, 0x2007, 0x2008, 0x2009, 0x200A, 0x2028, 0x2029, 0x202F, 0x205F, 0x3000, 0xFEFF}
  {
    if c > '~' {
      RareSpacesExactly(c);
    }
  }

  lemma RareSpacesExactly(c: char)
    ensures c in RARE_SPACES <==>
            c as int in {0xA0, 0x1680, 0x2000, 0x2001, 0x2002, 0x2003, 0x2004, 0x2005, 0x2006, 0x2007, 0x2008,
                         0x2009, 0x200A, 0x2028, 0x2029, 0x202F, 0x205F, 0x3000, 0xFEFF}
  {
    var low := "\U{00A0}\U{1680}\U{2000}\U{2001}\U{2002}\U{2003}\U{2004}\U{2005}";
    var high := "\U{2006}\U{2007}\U{2008}\U{2009}\U{200A}\U{2028}\U{2029}\U{202F}\U{205F}\U{3000}\U{FEFF}";
    assert RARE_SPACES == low + high;
    assert c in low <==> c as int in {0xA0, 0x1680, 0x2000, 0x2001, 0x2002, 0x2003, 0x2004, 0x2005};
    assert c in high <==>
           c as int in {0x2006, 0x2007, 0x2008, 0x2009, 0x200A, 0x2028, 0x2029, 0x202F, 0x205F, 0x3000, 0xFEFF};
  }

  /** trim takes the spaces from both ends and nothing else. */
  lemma {:induction false} TrimsExactly(s: string)
    ensures exists a, b :: 0 <= a <= b <= |s| && TrimmedAt(s, a, b)
  {
    hide IsSpace;
    if s == "" || (!IsSpace(s[0]) && !IsSpace(s[|s| - 1])) {
      assert TrimmedAt(s, 0, |s|);
    } else if IsSpace(s[0]) {
      TrimsExactly(s[1..]);
      var a, b :| 0 <= a <= b <= |s| - 1 && TrimmedAt(s[1..], a, b);
      SpaceBefore(s, a, b);
    } else {
      TrimsExactly(s[..|s| - 1]);
      var a, b :| 0 <= a <= b <= |s| - 1 && TrimmedAt(s[..|s| - 1], a, b);
      SpaceAfter(s, a, b);
    }
  }

  lemma SpaceBefore(s: string, a: nat, b: nat)
    requires s != "" && IsSpace(s[0]) && a <= b <= |s| - 1 && TrimmedAt(s[1..], a, b)
    ensures TrimmedAt(s, a + 1, b + 1)
  {
    hide IsSpace;
    assert s[1..][a..b] == s[a + 1..b + 1];
    assert forall k | 0 < k < |s| :: s[1..][k - 1] == s[k];
  }

  lemma SpaceAfter(s: string, a: nat, b: nat)
    requires s != "" && !IsSpace(s[0]) && IsSpace(s[|s| - 1]) && a <= b <= |s| - 1 && TrimmedAt(s[..|s| - 1], a, b)
    ensures TrimmedAt(s, a, b)
  {
    hide IsSpace;
    var last := |s| - 1;
    assert s[..last][a..b] == s[a..b];
    assert forall k | 0 <= k < last :: s[..last][k] == s[k];
  }

  /** What is left is s from a to b, around it are only spaces, and it begins and ends with none. */
  predicate TrimmedAt(s: string, a: int, b: int)
    requires 0 <= a <= b <= |s|
  {
    && Trim(s) == s[a..b]
    && (forall k | 0 <= k < a :: IsSpace(s[k])) && (forall k | b <= k < |s| :: IsSpace(s[k]))
    && (a < b ==> !IsSpace(s[a]) && !IsSpace(s[b - 1]))
  }

  lemma LettersExactly(c: char)
    ensures IdentStart(c) <==> c in "ABCDEFGHIJKLMNOPQRSTUVWXYZ" || c in "abcdefghijklmnopqrstuvwxyz" || c in "_$"
  {
    UpperExactly(c);
    LowerExactly(c);
  }

  lemma UpperExactly(c: char)
    ensures c in "ABCDEFGHIJKLMNOPQRSTUVWXYZ" <==> 'A' <= c <= 'Z'
  {
    var letters := "ABCDEFGHIJKLMNOPQRSTUVWXYZ";
    if 'A' <= c <= 'Z' {
      assert letters[c as int - 'A' as int] == c;
    }
  }

  lemma LowerExactly(c: char)
    ensures c in "abcdefghijklmnopqrstuvwxyz" <==> 'a' <= c <= 'z'
  {
    var letters := "abcdefghijklmnopqrstuvwxyz";
    if 'a' <= c <= 'z' {
      assert letters[c as int - 'a' as int] == c;
    }
  }

  lemma DigitsExactly(c: char)
    ensures Digit(c) <==> c in "0123456789"
    ensures IdentPart(c) <==> IdentStart(c) || c in "0123456789"
  {
    if '0' <= c <= '9' {
      assert "0123456789"[c as int - '0' as int] == c;
    }
  }

  /** The identifier pattern: a letter and then as many letters and digits as there are. */
  lemma IdentExactly(s: string, i: nat)
    requires i <= |s|
    ensures IdentEnd(s, i) == i <==> i == |s| || !IdentStart(s[i])
    ensures var e := IdentEnd(s, i);
            e > i ==> (forall k | i < k < e :: IdentPart(s[k])) && (e < |s| ==> !IdentPart(s[e]))
  {
  }

  /** After a dot: a name, or else a run of digits. */
  lemma MemberExactly(s: string, i: nat)
    requires i <= |s|
    ensures var e := MemberEnd(s, i);
            if i < |s| && IdentStart(s[i]) then e == IdentEnd(s, i)
            else (forall k | i <= k < e :: Digit(s[k])) && (e < |s| ==> !Digit(s[e]))
  {
  }

  datatype Numeral = Numeral(negative: bool, whole: string, fraction: Option<string>)

  function Spelled(n: Numeral): string {
    (if n.negative then "-" else "") + n.whole + (if n.fraction.Some? then "." + n.fraction.value else "")
  }

  predicate IsNumeral(n: Numeral) {
    Digits(n.whole) && (n.fraction.Some? ==> Digits(n.fraction.value))
  }

  /** A number is an optional sign, digits, and an optional point with digits. */
  lemma NumbersExactly(s: string)
    ensures IsNumber(s) <==> exists n: Numeral :: IsNumeral(n) && Spelled(n) == s
  {
    if IsNumber(s) {
      var n := NumeralOf(s);
    }
    if n: Numeral :| IsNumeral(n) && Spelled(n) == s {
      NumeralIsNumber(n);
    }
  }

  lemma NumeralOf(s: string) returns (n: Numeral)
    requires IsNumber(s)
    ensures IsNumeral(n) && Spelled(n) == s
  {
    var start := if s[0] == '-' then 1 else 0;
    var end := DigitsEnd(s, start);
    n := Numeral(start == 1, s[start..end], if end == |s| then None else Some(s[end + 1..]));
    NumeralParts(s, start, end);
    hide DigitsEnd, IsNumber;
    if end == |s| {
      WholeSpelled(s, start);
    } else {
      FractionSpelled(s, start, end);
    }
  }

  lemma NumeralParts(s: string, start: nat, end: nat)
    requires IsNumber(s) && start == (if s[0] == '-' then 1 else 0) && end == DigitsEnd(s, start)
    ensures start < end <= |s| && Digits(s[start..end])
    ensures end < |s| ==> s[end] == '.' && Digits(s[end + 1..])
  {
    assert forall k | start <= k < end :: Digit(s[k]);
    if end < |s| {
      assert forall k | end + 1 <= k < |s| :: Digit(s[k]);
    }
  }

  lemma WholeSpelled(s: string, start: nat)
    requires s != "" && start == (if s[0] == '-' then 1 else 0)
    ensures Spelled(Numeral(start == 1, s[start..], None)) == s
    ensures s[start..|s|] == s[start..]
  {
    if start == 1 {
      assert s == [s[0]] + s[1..];
    }
  }

  lemma FractionSpelled(s: string, start: nat, end: nat)
    requires s != "" && start == (if s[0] == '-' then 1 else 0) && start < end < |s| && s[end] == '.'
    ensures Spelled(Numeral(start == 1, s[start..end], Some(s[end + 1..]))) == s
  {
    var whole := s[..end];
    assert s == whole + ("." + s[end + 1..]);
    WholeSpelled(whole, start);
    assert whole[start..] == s[start..end];
  }

  lemma NumeralIsNumber(n: Numeral)
    requires IsNumeral(n)
    ensures IsNumber(Spelled(n))
  {
    var s := Spelled(n);
    var start := if n.negative then 1 else 0;
    var end := start + |n.whole|;
    assert forall k | start <= k < end :: s[k] == n.whole[k - start];
    assert s[0] == '-' <==> n.negative;
    assert n.fraction.Some? ==> s[end] == '.';
    RunEndIs(s, start, end, Digit);
    if n.fraction.Some? {
      assert forall k | end < k < |s| :: s[k] == n.fraction.value[k - end - 1];
      RunEndIs(s, end + 1, |s|, Digit);
    }
  }

  /** Quotes stand for whatever is between them, brackets and operators included. */
  lemma QuotedIsString<V>(js: Js<V>, quote: char, text: string)
    requires quote == '"' || quote == '\''
    ensures Atom(js, [quote] + text + [quote]) == Some(js.ofString(text))
  {
    var s := [quote] + text + [quote];
    assert s[0] == quote && s[|s| - 1] == quote && s[1..|s| - 1] == text;
    assert "true"[0] != quote && "false"[0] != quote && "null"[0] != quote && "undefined"[0] != quote;
    assert DigitsEnd(s, 0) == 0;
  }

  /** The four operators as they are written. */
  lemma OperatorsExactly()
    ensures OpText(StrictlyEqual) == "===" && OpText(StrictlyUnequal) == "!=="
    ensures OpText(LooselyEqual) == "==" && OpText(LooselyUnequal) == "!="
  {
  }

  // ---------- Nesting of concatenations ----------

  lemma {:induction false} DepthOfConcat(a: string, b: string, n: nat, kind: Kind)
    requires n <= |a| + |b|
    ensures Depth(a + b, n, kind) == if n <= |a| then Depth(a, n, kind)
                                     else Depth(a, |a|, kind) + Depth(b, n - |a|, kind)
  {
    if n > 0 {
      DepthOfConcat(a, b, n - 1, kind);
      assert (a + b)[n - 1] == if n <= |a| then a[n - 1] else b[n - 1 - |a|];
    }
  }

  /** Never below the outside, and back outside at the end. */
  ghost predicate Balanced(s: string, kind: Kind) {
    Depth(s, |s|, kind) == 0 && forall n | 0 <= n <= |s| :: Depth(s, n, kind) >= 0
  }

  /** Outside at both ends only. */
  ghost predicate Enclosed(s: string, kind: Kind) {
    Depth(s, |s|, kind) == 0 && forall n | 0 < n < |s| :: Depth(s, n, kind) > 0
  }

  lemma BalancedConcat(a: string, b: string, kind: Kind)
    requires Balanced(a, kind) && Balanced(b, kind)
    ensures Balanced(a + b, kind)
  {
    forall n | 0 <= n <= |a + b|
      ensures Depth(a + b, n, kind) >= 0
      ensures n == |a + b| ==> Depth(a + b, n, kind) == 0
    {
      DepthOfConcat(a, b, n, kind);
    }
  }

  predicate Brackets(open: char, close: char) {
    (open == '(' && close == ')') || (open == '[' && close == ']')
  }

  function Bracketed(open: char, s: string, close: char): string {
    [open] + s + [close]
  }

  /** Inside a pair of brackets everything is one deeper, if that kind counts. */
  lemma DepthInside(open: char, s: string, close: char, n: nat, kind: Kind)
    requires Brackets(open, close) && n <= |s|
    ensures Depth(Bracketed(open, s, close), n + 1, kind) == Weight(open, kind) + Depth(s, n, kind)
  {
    DepthOfConcat([open] + s, [close], n + 1, kind);
    DepthOfConcat([open], s, n + 1, kind);
    assert Depth([open], 1, kind) == Depth([open], 0, kind) + Weight(open, kind);
  }

  lemma BracketedIsEnclosed(open: char, s: string, close: char, kind: Kind)
    requires Brackets(open, close) && Balanced(s, kind)
    ensures Balanced(Bracketed(open, s, close), kind)
    ensures Weight(open, kind) == 1 ==> Enclosed(Bracketed(open, s, close), kind)
  {
    var t := Bracketed(open, s, close);
    DepthInside(open, s, close, |s|, kind);
    assert Depth(t, |t|, kind) == Depth(t, |s| + 1, kind) + Weight(close, kind);
    forall n | 0 < n < |t|
      ensures Depth(t, n, kind) >= Weight(open, kind)
    {
      DepthInside(open, s, close, n - 1, kind);
    }
  }

  /** No equality sign and no bang in sight from the outside. */
  ghost predicate Quiet(s: string) {
    forall i | 0 <= i < |s| && (s[i] == '=' || s[i] == '!') :: Depth(s, i, Both) > 0
  }

  lemma QuietConcat(a: string, b: string)
    requires Quiet(a) && Quiet(b) && Balanced(a, Both)
    ensures Quiet(a + b)
  {
    forall i | 0 <= i < |a + b| && ((a + b)[i] == '=' || (a + b)[i] == '!')
      ensures Depth(a + b, i, Both) > 0
    {
      DepthOfConcat(a, b, i, Both);
    }
  }

  lemma BracketedIsQuiet(open: char, s: string, close: char)
    requires Brackets(open, close) && Balanced(s, Both)
    ensures Quiet(Bracketed(open, s, close))
  {
    BracketedIsEnclosed(open, s, close, Both);
  }

  predicate Structural(c: char) {
    c == '(' || c == ')' || c == '[' || c == ']' || c == '=' || c == '!'
  }

  predicate Flat(s: string) {
    forall k | 0 <= k < |s| :: !Structural(s[k])
  }

  lemma {:induction false} UnweightedIsOutside(s: string, n: nat, kind: Kind)
    requires n <= |s| && forall k | 0 <= k < |s| :: Weight(s[k], kind) == 0
    ensures Depth(s, n, kind) == 0
  {
    if n > 0 {
      UnweightedIsOutside(s, n - 1, kind);
    }
  }

  lemma UnweightedIsBalanced(s: string, kind: Kind)
    requires forall k | 0 <= k < |s| :: Weight(s[k], kind) == 0
    ensures Balanced(s, kind)
  {
    forall n | 0 <= n <= |s|
      ensures Depth(s, n, kind) == 0
    {
      UnweightedIsOutside(s, n, kind);
    }
  }

  lemma FlatIsHarmless(s: string, kind: Kind)
    requires Flat(s)
    ensures Balanced(s, kind) && Quiet(s)
  {
    UnweightedIsBalanced(s, kind);
  }

  // ---------- What printed trees look like ----------

  lemma NumberCharacters(s: string)
    requires IsNumber(s)
    ensures s != "" && !IdentStart(s[0])
    ensures forall k | 0 <= k < |s| :: Digit(s[k]) || s[k] == '-' || s[k] == '.'
  {
    var start := if s[0] == '-' then 1 else 0;
    var end := DigitsEnd(s, start);
    assert forall k | start <= k < end :: Digit(s[k]);
    if end != |s| {
      assert forall k | end + 1 <= k < |s| :: Digit(s[k]);
    }
  }

  /** A leaf holds no bracket, no equality sign and no bang. */
  lemma LeafIsFlat(e: Expr)
    requires Printable(e) || IsPath(e)
    requires e.Constant? || e.Number? || e.Literal? || e.Name?
    ensures Flat(Print(e)) && Print(e) != ""
    ensures !IsSpace(Print(e)[0]) && !IsSpace(Print(e)[|Print(e)| - 1])
  {
    assert if e.Name? then Identifier(e.name) else Printable(e);
    hide Flat, IsSpace, Printable, IsPath;
    match e
    case Constant(word) => WordIsFlat(e);
    case Number(digits) => NumberIsFlat(e);
    case Literal(quote, text) => LiteralIsFlat(e);
    case Name(name) => NameIsFlat(e);
  }

  lemma WordIsFlat(e: Expr)
    requires e.Constant? && Printable(e)
    ensures Flat(e.word) && e.word != "" && !IsSpace(e.word[0]) && !IsSpace(e.word[|e.word| - 1])
  {
  }

  lemma NumberIsFlat(e: Expr)
    requires e.Number? && Printable(e)
    ensures Flat(e.digits) && e.digits != "" && !IsSpace(e.digits[0]) && !IsSpace(e.digits[|e.digits| - 1])
  {
    NumberCharacters(e.digits);
  }

  lemma LiteralIsFlat(e: Expr)
    requires e.Literal? && Printable(e)
    ensures var s := Print(e);
            Flat(s) && s != "" && !IsSpace(s[0]) && !IsSpace(s[|s| - 1])
  {
    hide IsSpace;
    var s := Print(e);
    assert s[0] == e.quote == s[|s| - 1];
    QuoteIsNoSpace(e.quote);
    forall k | 0 <= k < |s|
      ensures !Structural(s[k])
    {
      if 0 < k < |s| - 1 {
        assert s[k] == e.text[k - 1] && Plain(e.text[k - 1]);
      }
    }
  }

  lemma QuoteIsNoSpace(quote: char)
    requires quote == '"' || quote == '\''
    ensures !IsSpace(quote)
  {
  }

  lemma NameIsFlat(e: Expr)
    requires e.Name? && Identifier(e.name)
    ensures Flat(e.name) && e.name != "" && !IsSpace(e.name[0]) && !IsSpace(e.name[|e.name| - 1])
  {
    hide IsSpace;
    PartIsNoSpace(e.name[0]);
    PartIsNoSpace(e.name[|e.name| - 1]);
  }

  lemma PartIsNoSpace(c: char)
    requires IdentPart(c)
    ensures !IsSpace(c)
  {
  }

  lemma MemberSuffixIsFlat(name: string)
    requires Identifier(name) || Digits(name)
    ensures Flat("." + name)
  {
  }

  lemma {:induction false} PrintedIsBalanced(e: Expr, kind: Kind)
    requires Printable(e) || IsPath(e)
    ensures Balanced(Print(e), kind)
  {
    match e
    case Not(operand) =>
      PrintedIsBalanced(operand, kind);
      BracketedIsEnclosed('(', Print(operand), ')', kind);
      UnweightedIsBalanced("!", kind);
      BalancedConcat("!", Parenthesised(Print(operand)), kind);
    case Equality(op, left, right) =>
      PrintedIsBalanced(left, kind);
      PrintedIsBalanced(right, kind);
      BracketedIsEnclosed('(', Print(left), ')', kind);
      BracketedIsEnclosed('(', Print(right), ')', kind);
      UnweightedIsBalanced(OpText(op), kind);
      BalancedConcat(Parenthesised(Print(left)), OpText(op), kind);
      BalancedConcat(Parenthesised(Print(left)) + OpText(op), Parenthesised(Print(right)), kind);
    case Member(base, name) =>
      PrintedIsBalanced(base, kind);
      MemberSuffixIsFlat(name);
      FlatIsHarmless("." + name, kind);
      BalancedConcat(Print(base), "." + name, kind);
    case Element(base, key) =>
      PrintedIsBalanced(base, kind);
      PrintedIsBalanced(key, kind);
      BracketedIsEnclosed('[', Print(key), ']', kind);
      BalancedConcat(Print(base), Bracketed('[', Print(key), ']'), kind);
    case _ =>
      LeafIsFlat(e);
      FlatIsHarmless(Print(e), kind);
  }

  lemma {:induction false} PrintedPathIsQuiet(e: Expr)
    requires IsPath(e)
    ensures Quiet(Print(e))
  {
    match e
    case Name(name) =>
      LeafIsFlat(e);
      FlatIsHarmless(name, Both);
    case Member(base, name) =>
      PrintedPathIsQuiet(base);
      PrintedIsBalanced(base, Both);
      MemberSuffixIsFlat(name);
      FlatIsHarmless("." + name, Both);
      QuietConcat(Print(base), "." + name);
    case Element(base, key) =>
      PrintedPathIsQuiet(base);
      PrintedIsBalanced(base, Both);
      PrintedIsBalanced(key, Both);
      BracketedIsQuiet('[', Print(key), ']');
      QuietConcat(Print(base), Bracketed('[', Print(key), ']'));
  }

  lemma {:induction false} PathEnds(e: Expr)
    requires IsPath(e)
    ensures var s := Print(e);
            s != "" && IdentStart(s[0]) && (IdentPart(s[|s| - 1]) || s[|s| - 1] == ']')
  {
    match e
    case Name(_) =>
    case Member(base, _) => PathEnds(base);
    case Element(base, _) => PathEnds(base);
  }

  /** Reading is not distracted by space at the ends, for there is none. */
  lemma PrintedIsTrimmed(e: Expr)
    requires Printable(e)
    ensures Print(e) != "" && Trim(Print(e)) == Print(e)
  {
    if IsPath(e) {
      PathEnds(e);
    } else if e.Not? || e.Equality? {
      var s := Print(e);
      assert !IsSpace(s[0]) && s[|s| - 1] == ')';
    } else {
      LeafIsFlat(e);
    }
  }

  lemma {:induction false} FirstEqualityIs(s: string, i: nat, at: nat)
    requires i <= at && EqualityAt(s, at) && forall k: nat | i <= k < at :: !EqualityAt(s, k)
    ensures FirstEquality(s, i) == Some(at)
    decreases at - i
  {
    if i < at {
      FirstEqualityIs(s, i + 1, at);
    }
  }

  lemma {:induction false} NoEqualityIs(s: string, i: nat)
    requires forall k: nat | i <= k :: !EqualityAt(s, k)
    ensures FirstEquality(s, i) == None
    decreases |s| - i
  {
    if i < |s| {
      NoEqualityIs(s, i + 1);
    }
  }

  // ---------- One step of the reader at a time ----------

  lemma QuietIsSimple(s: string)
    requires s != "" && Quiet(s) && s[0] != '('
    ensures ShapeOf(s) == Simple
  {
    NoEqualityIs(s, 0);
    assert Depth(s, 0, Both) == 0;
  }

  /** The reader has walked s up to n, and holds v. */
  ghost predicate Reached<V>(js: Js<V>, vals: V, s: string, n: nat, v: V) {
    n <= |s| && ReadPath(js, vals, s) == Walk(js, vals, s, v, n)
  }

  lemma ReachesName<V>(js: Js<V>, vals: V, name: string, rest: string)
    requires Identifier(name) && Continues(rest)
    ensures Reached(js, vals, name + rest, |name|, Get(js, vals, name))
  {
    NameIsFound(name, rest);
  }

  lemma ReachesMember<V>(js: Js<V>, vals: V, s: string, i: nat, e: nat, v: V)
    requires Reached(js, vals, s, i, v)
    requires i < |s| && s[i] == '.' && MemberEnd(s, i + 1) == e > i + 1
    ensures Reached(js, vals, s, e, Get(js, v, s[i + 1..e]))
  {
  }

  lemma ReachesElement<V>(js: Js<V>, vals: V, s: string, i: nat, j: nat, v: V)
    requires Reached(js, vals, s, i, v)
    requires i < |s| && s[i] == '[' && Closer(s, i, i + 1) == Some(j)
    ensures Reached(js, vals, s, j + 1, Get(js, v, KeyBetween(js, vals, s, i, j)))
  {
  }

  lemma KeyIsRead<V>(js: Js<V>, vals: V, s: string, i: nat, j: nat, key: string)
    requires i < j < |s| && s[i + 1..j] == key
    ensures KeyBetween(js, vals, s, i, j) == js.keyOf(Read(js, vals, key))
  {
  }

  // ---------- Finding the parts of a printed text ----------

  /** A parenthesised operand is read as the operand. */
  lemma ReadParenthesised<V>(js: Js<V>, vals: V, e: Expr)
    requires Printable(e)
    ensures Read(js, vals, Parenthesised(Print(e))) == Read(js, vals, Print(e))
  {
    var p := Print(e);
    var s := Parenthesised(p);
    PrintedIsBalanced(e, Parens);
    BracketedIsEnclosed('(', p, ')', Parens);
    assert s == Bracketed('(', p, ')');
    assert s[1..|s| - 1] == p;
    assert ShapeOf(s) == Wrapped;
  }

  lemma OperatorIsFound(l: string, op: Op, rest: string)
    requires Enclosed(l, Both) && Enclosed(l, Parens) && Quiet(l) && |l| >= 2 && l[0] == '(' && l[|l| - 1] == ')'
    requires rest != "" && rest[0] == '('
    ensures var s := l + (OpText(op) + rest);
            && !WrapsWhole(s)
            && FirstEquality(s, 0) == Some(|l|)
            && OperatorAt(s, |l|) == op
            && s[..|l|] == l && s[|l| + |OpText(op)|..] == rest
  {
    var tail := OpText(op) + rest;
    var s := l + tail;
    assert s[..|l|] == l && s[|l| + |OpText(op)|..] == rest;
    forall i: nat | i <= |l|
      ensures Depth(s, i, Both) == Depth(l, i, Both) && Depth(s, i, Parens) == Depth(l, i, Parens)
    {
      DepthOfConcat(l, tail, i, Both);
      DepthOfConcat(l, tail, i, Parens);
    }
    assert s[|l| - 1] == ')' && Depth(s, |l| - 1 + 1, Parens) == 0;
    assert Trim(l) == l;
    assert s[|l|] == tail[0] && s[|l| + 1] == tail[1] && s[|l| + 2] == tail[2];
    assert EqualityAt(s, |l|);
    forall i: nat | i < |l|
      ensures !EqualityAt(s, i)
    {
      assert s[i] == l[i];
    }
    FirstEqualityIs(s, 0, |l|);
  }

  lemma BangIsNegation(inner: string)
    requires Quiet(inner) && inner != "" && inner[0] == '('
    ensures ShapeOf("!" + inner) == Negated
  {
    var s := "!" + inner;
    forall i: nat
      ensures !EqualityAt(s, i)
    {
      if 0 < i < |s| {
        DepthOfConcat("!", inner, i, Both);
        assert Depth("!", 1, Both) == Depth("!", 0, Both) + Weight('!', Both);
        assert s[i] == inner[i - 1];
      } else if i == 0 {
        assert s[1] == inner[0];
      }
    }
    NoEqualityIs(s, 0);
  }

  /** What may come after a printed path inside a longer one. */
  predicate Continues(rest: string) {
    rest == "" || rest[0] == '.' || rest[0] == '['
  }

  lemma RunEndIs(s: string, i: nat, e: nat, p: char -> bool)
    requires i <= e <= |s|
    requires forall k | i <= k < e :: p(s[k])
    requires e < |s| ==> !p(s[e])
    ensures RunEnd(s, i, p) == e
  {
    var r := RunEnd(s, i, p);
    if r < e {
      assert false;
    } else if e < r {
      assert false;
    }
  }

  lemma NameIsFound(name: string, rest: string)
    requires Identifier(name) && Continues(rest)
    ensures IdentEnd(name + rest, 0) == |name| && (name + rest)[..|name|] == name
  {
    RunEndIs(name + rest, 1, |name|, IdentPart);
  }

  lemma MemberIsFound(base: string, name: string, rest: string) returns (s: string)
    requires (Identifier(name) || Digits(name)) && Continues(rest)
    ensures s == base + ("." + name + rest) == base + ("." + name) + rest
    ensures var i := |base|;
            s[i] == '.' && MemberEnd(s, i + 1) == i + 1 + |name| && s[i + 1..i + 1 + |name|] == name
  {
    s := base + ("." + name + rest);
    var i := |base| + 1;
    var e := i + |name|;
    assert s[i..e] == name;
    assert forall k | i <= k < e :: s[k] == name[k - i];
    assert e < |s| ==> s[e] == rest[0];
    if Identifier(name) {
      RunEndIs(s, i + 1, e, IdentPart);
    } else {
      RunEndIs(s, i, e, Digit);
    }
  }

  lemma {:induction false} CloserIs(s: string, i: nat, j: nat, close: nat)
    requires i < j <= close < |s|
    requires Depth(s, close + 1, Squares) == Depth(s, i, Squares)
    requires forall m | j < m <= close :: Depth(s, m, Squares) > Depth(s, i, Squares)
    ensures Closer(s, i, j) == Some(close)
    decreases close - j
  {
    if j < close {
      CloserIs(s, i, j + 1, close);
    }
  }

  lemma ElementIsFound(base: string, k: string, rest: string) returns (s: string)
    requires Balanced(k, Squares)
    ensures s == base + (Bracketed('[', k, ']') + rest) == base + Bracketed('[', k, ']') + rest
    ensures var i := |base|;
            s[i] == '[' && Closer(s, i, i + 1) == Some(i + 1 + |k|) && s[i + 1..i + 1 + |k|] == k
  {
    var inner := Bracketed('[', k, ']');
    s := base + (inner + rest);
    var i := |base|;
    BracketedIsEnclosed('[', k, ']', Squares);
    forall m | i <= m <= i + |inner|
      ensures Depth(s, m, Squares) == Depth(base, i, Squares) + Depth(inner, m - i, Squares)
    {
      DepthOfConcat(base, inner + rest, m, Squares);
      DepthOfConcat(inner, rest, m - i, Squares);
      assert Depth(inner + rest, 0, Squares) == 0 == Depth(inner, 0, Squares);
    }
    assert s[i..i + |inner|] == inner;
    assert s[i + 1..i + 1 + |k|] == inner[1..1 + |k|] == k;
    CloserIs(s, i, i + 1, i + 1 + |k|);
  }

  // ---------- Reading inverts printing ----------

  /** Walking a path's own text gets to the path's value, whatever path follows. */
  lemma {:induction false} WalksToValue<V>(js: Js<V>, vals: V, e: Expr, rest: string)
    requires IsPath(e) && Continues(rest)
    ensures Reached(js, vals, Print(e) + rest, |Print(e)|, Eval(js, vals, e))
    decreases e, 0
  {
    hide Reached, Read, MemberEnd, Closer, Get, Eval;
    PathSteps(js, vals, e);
    match e
    case Name(name) =>
      ReachesName(js, vals, name, rest);
    case Member(base, name) =>
      WalksToValue(js, vals, base, "." + name + rest);
      WalksMember(js, vals, base, name, rest);
    case Element(base, key) =>
      WalksToValue(js, vals, base, Bracketed('[', Print(key), ']') + rest);
      ReadInvertsPrint(js, vals, key);
      WalksElement(js, vals, base, key, rest);
  }

  /** Each step of a path takes one property of what comes before it. */
  lemma PathSteps<V>(js: Js<V>, vals: V, e: Expr)
    ensures e.Name? ==> Eval(js, vals, e) == Get(js, vals, e.name)
    ensures e.Member? ==> Eval(js, vals, e) == Get(js, Eval(js, vals, e.base), e.name)
    ensures e.Element? ==> Eval(js, vals, e) == Get(js, Eval(js, vals, e.base), js.keyOf(Eval(js, vals, e.key)))
  {
  }

  lemma WalksMember<V>(js: Js<V>, vals: V, base: Expr, name: string, rest: string)
    requires IsPath(Expr.Member(base, name)) && Continues(rest)
    requires Reached(js, vals, Print(base) + ("." + name + rest), |Print(base)|, Eval(js, vals, base))
    ensures var e := Expr.Member(base, name);
            Reached(js, vals, Print(e) + rest, |Print(e)|, Get(js, Eval(js, vals, base), name))
  {
    hide Reached, Read, MemberEnd, Closer, Get, Eval;
    var b := Print(base);
    var s := MemberIsFound(b, name, rest);
    ReachesMember(js, vals, s, |b|, |b| + 1 + |name|, Eval(js, vals, base));
  }

  lemma WalksElement<V>(js: Js<V>, vals: V, base: Expr, key: Expr, rest: string)
    requires IsPath(Element(base, key)) && Continues(rest)
    requires Reached(js, vals, Print(base) + (Bracketed('[', Print(key), ']') + rest), |Print(base)|,
               Eval(js, vals, base))
    requires Read(js, vals, Print(key)) == Eval(js, vals, key)
    ensures var e := Element(base, key);
            Reached(js, vals, Print(e) + rest, |Print(e)|, Get(js, Eval(js, vals, base), js.keyOf(Eval(js, vals, key))))
  {
    PrintedIsBalanced(key, Squares);
    assert Print(Element(base, key)) == Print(base) + Bracketed('[', Print(key), ']');
    hide Reached, Read, Get, Eval, Print, Bracketed, Balanced;
    StepsOverBrackets(js, vals, Print(base), Print(key), rest, Eval(js, vals, base));
  }

  lemma StepsOverBrackets<V>(js: Js<V>, vals: V, b: string, k: string, rest: string, v: V)
    requires Balanced(k, Squares) && Reached(js, vals, b + (Bracketed('[', k, ']') + rest), |b|, v)
    ensures var path := b + Bracketed('[', k, ']');
            Reached(js, vals, path + rest, |path|, Get(js, v, js.keyOf(Read(js, vals, k))))
  {
    hide Reached, Read, Closer, Get, Balanced, KeyBetween;
    var s := ElementIsFound(b, k, rest);
    assert |Bracketed('[', k, ']')| == |k| + 2;
    ReachesElement(js, vals, s, |b|, |b| + 1 + |k|, v);
    KeyIsRead(js, vals, s, |b|, |b| + 1 + |k|, k);
  }

  lemma ReadsLeaf<V>(js: Js<V>, vals: V, e: Expr)
    requires Printable(e) && (e.Constant? || e.Number? || e.Literal?)
    ensures Read(js, vals, Print(e)) == Eval(js, vals, e)
  {
    var s := Print(e);
    LeafIsFlat(e);
    FlatIsHarmless(s, Both);
    assert s[0] != '(';
    QuietIsSimple(s);
    AtomOfLeaf(js, vals, e);
  }

  lemma AtomOfLeaf<V>(js: Js<V>, vals: V, e: Expr)
    requires Printable(e) && (e.Constant? || e.Number? || e.Literal?)
    ensures Atom(js, Print(e)) == Some(Eval(js, vals, e))
  {
    if e.Number? {
      NumberCharacters(e.digits);
    } else if e.Literal? {
      var s := Print(e);
      assert s[0] == e.quote && s[|s| - 1] == e.quote && s[1..|s| - 1] == e.text;
      if IsNumber(s) {
        NumberCharacters(s);
      }
    }
  }

  lemma IdentifierIsNoAtom<V>(js: Js<V>, s: string)
    requires s != "" && IdentStart(s[0]) && s !in WORDS
    ensures Atom(js, s) == None
  {
    if IsNumber(s) {
      NumberCharacters(s);
    }
  }

  lemma SeparatedIsNoWord(s: string, i: nat)
    requires i < |s| && (s[i] == '.' || s[i] == '[')
    ensures s !in WORDS
  {
  }

  /** A printed path is read as no word, no number and no string. */
  lemma PathIsNoAtom<V>(js: Js<V>, e: Expr)
    requires Printable(e) && IsPath(e)
    ensures Atom(js, Print(e)) == None
  {
    PathEnds(e);
    if !e.Name? {
      SeparatedIsNoWord(Print(e), |Print(e.base)|);
    }
    IdentifierIsNoAtom(js, Print(e));
  }

  /** For every printable tree and every store of values, reading the printed text gives the tree's own meaning. */
  lemma {:induction false} ReadInvertsPrint<V>(js: Js<V>, vals: V, e: Expr)
    requires Printable(e)
    ensures Read(js, vals, Print(e)) == Eval(js, vals, e)
    decreases e, 1
  {
    if e.Constant? || e.Number? || e.Literal? {
      ReadsLeaf(js, vals, e);
    } else if e.Not? {
      ReadInvertsPrint(js, vals, e.operand);
      ReadsNot(js, vals, e);
    } else if e.Equality? {
      ReadInvertsPrint(js, vals, e.left);
      ReadInvertsPrint(js, vals, e.right);
      ReadsEqualityTree(js, vals, e);
    } else {
      var s := Print(e);
      PrintedIsTrimmed(e);
      PrintedPathIsQuiet(e);
      PathEnds(e);
      QuietIsSimple(s);
      PathIsNoAtom(js, e);
      WalksToValue(js, vals, e, "");
      assert s + "" == s;
    }
  }

  lemma ReadsNot<V>(js: Js<V>, vals: V, e: Expr)
    requires Printable(e) && e.Not?
    requires Read(js, vals, Print(e.operand)) == Eval(js, vals, e.operand)
    ensures Read(js, vals, Print(e)) == Eval(js, vals, e)
  {
    var inner := Parenthesised(Print(e.operand));
    PrintedIsTrimmed(e);
    PrintedIsBalanced(e.operand, Both);
    BracketedIsQuiet('(', Print(e.operand), ')');
    BangIsNegation(inner);
    assert Print(e) == "!" + inner && Print(e)[1..] == inner;
    ReadParenthesised(js, vals, e.operand);
  }

  lemma ReadsEqualityTree<V>(js: Js<V>, vals: V, e: Expr)
    requires Printable(e) && e.Equality?
    requires Read(js, vals, Print(e.left)) == Eval(js, vals, e.left)
    requires Read(js, vals, Print(e.right)) == Eval(js, vals, e.right)
    ensures Read(js, vals, Print(e)) == Eval(js, vals, e)
  {
    PrintedIsBalanced(e.left, Both);
    PrintedIsBalanced(e.left, Parens);
    ReadsOperands(js, vals, Print(e.left), e.op, Print(e.right));
    ReadParenthesised(js, vals, e.left);
    ReadParenthesised(js, vals, e.right);
  }

  lemma ReadsOperands<V>(js: Js<V>, vals: V, left: string, op: Op, right: string)
    requires Balanced(left, Both) && Balanced(left, Parens)
    ensures var l, r := Parenthesised(left), Parenthesised(right);
            Read(js, vals, l + OpText(op) + r) == Compare(js, op, Read(js, vals, l), Read(js, vals, r))
  {
    var l, r := Parenthesised(left), Parenthesised(right);
    EqualityIsFound(left, op, right);
  }

  lemma EqualityIsFound(left: string, op: Op, right: string)
    requires Balanced(left, Both) && Balanced(left, Parens)
    ensures var l, r := Parenthesised(left), Parenthesised(right);
            var s := l + OpText(op) + r;
            && Trim(s) == s && ShapeOf(s) == Equated(|l|, op)
            && s[..|l|] == l && s[|l| + |OpText(op)|..] == r
  {
    var l, r := Parenthesised(left), Parenthesised(right);
    var s := l + OpText(op) + r;
    BracketedIsEnclosed('(', left, ')', Both);
    BracketedIsEnclosed('(', left, ')', Parens);
    BracketedIsQuiet('(', left, ')');
    OperatorIsFound(l, op, r);
    assert s == l + (OpText(op) + r);
    assert s[0] == '(' && s[|s| - 1] == r[|r| - 1] == ')';
  }
}
