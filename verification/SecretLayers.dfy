/**
 Several secret stores asked in order (packages/providers/src/sealed-store.ts,
 packages/providers/src/credentials.ts).  A store is the tree of layers a deployment built,
 with what each layer holds at the moment it is asked.
 */
module SecretLayers {
  import opened Options

  type Ref = string
  type Material = map<string, string>

  datatype Error = NoSecret(ref: Ref) | NotReadable | NotOpened(ref: Ref) | NotSet | Unavailable | NotWritable

  /** A sealed entry: what it opens to under its reference, if it opens, and when it was written. */
  datatype Kept = Kept(opensTo: Option<Material>, updatedAt: int)

  datatype Store =
    | Memory(entries: map<Ref, Material>)
    | Environment(parsed: Option<map<Ref, Option<Material>>>)
    | Sealed(file: Option<map<Ref, Kept>>)
    | Manager(reachable: bool, holds: map<Ref, Material>)
    | Layered(layers: seq<Store>)

  /** A layered store has a layer: its constructor throws otherwise. */
  predicate Built(s: Store) {
    s.Layered? ==> s.layers != [] && forall i | 0 <= i < |s.layers| :: Built(s.layers[i])
  }

  // ---------- What a screen may know of a secret ----------

  /** A digest stands for the value it was taken of. */
  datatype Field = Masked(text: string) | Fingerprint(value: string)

  datatype Description = Description(updatedAt: Option<int>, fields: map<string, Field>)

  const NOT_SECRET: set<string> := {"clientId", "appId", "applicationId"}
  const PROTO := "__proto__"

  function MaskValue(value: string): string {
    if |value| <= 10 then "…" else value[..6] + "…" + value[|value| - 4..]
  }

  function DescribeField(name: string, value: string): Field {
    if name in NOT_SECRET then Masked(MaskValue(value)) else Fingerprint(value)
  }

  /** Every field but one named `__proto__`, which assigning into an object literal does not create. */
  function DescribeMaterial(material: Material, updatedAt: Option<int>): Description {
    Description(updatedAt, map name | name in material && name != PROTO :: DescribeField(name, material[name]))
  }

  method FillFields(material: Material, names: seq<string>, updatedAt: Option<int>) returns (d: Description)
    requires forall name :: name in material <==> name in names
    ensures d == DescribeMaterial(material, updatedAt)
  {
    var fields: map<string, Field> := map[];
    for i := 0 to |names|
      invariant forall name :: name in fields <==> name in names[..i] && name != PROTO
      invariant forall name | name in fields :: fields[name] == DescribeField(name, material[name])
    {
      assert names[..i + 1] == names[..i] + [names[i]];
      assert names[i] in names;
      if names[i] != PROTO {
        fields := fields[names[i] := DescribeField(names[i], material[names[i]])];
      }
    }
    assert names[..|names|] == names;
    d := Description(updatedAt, fields);
    assert fields == DescribeMaterial(material, updatedAt).fields;
  }

  /** A description shows every field if and only if none of them is named `__proto__`. */
  lemma DescribesAllExactly(material: Material, updatedAt: Option<int>)
    ensures DescribeMaterial(material, updatedAt).fields.Keys == material.Keys <==> PROTO !in material
  {
    var shown := DescribeMaterial(material, updatedAt).fields;
    assert PROTO !in shown.Keys;
    assert PROTO in material ==> PROTO in material.Keys;
  }

  // ---------- One store ----------

  /** Material with no fields is not something stored. */
  predicate IsStored(m: Material) {
    m != map[]
  }

  datatype Fetched = Got(material: Material) | Raised(error: Error)

  datatype Described = Said(description: Description) | Nothing | Failed(error: Error)

  function Serve(found: Option<Material>, ref: Ref): Fetched {
    if found.Some? && IsStored(found.value) then Got(found.value) else Raised(NoSecret(ref))
  }

  function DescribeStored(found: Option<Material>, updatedAt: Option<int>): Described {
    if found.Some? && IsStored(found.value) then Said(DescribeMaterial(found.value, updatedAt)) else Nothing
  }

  function Lookup<V>(m: map<Ref, V>, ref: Ref): Option<V> {
    if ref in m then Some(m[ref]) else None
  }

  /** An entry written as null is one that is not there. */
  function LookupEntry(m: map<Ref, Option<Material>>, ref: Ref): Option<Material> {
    if ref in m then m[ref] else None
  }

  function Fetch(s: Store, ref: Ref): Fetched {
    match s
    case Memory(entries) => Serve(Lookup(entries, ref), ref)
    case Environment(parsed) => if parsed.None? then Raised(NotSet) else Serve(LookupEntry(parsed.value, ref), ref)
    case Sealed(file) =>
      if file.None? then Raised(NotReadable)
      else if ref !in file.value then Raised(NoSecret(ref))
      else if file.value[ref].opensTo.None? then Raised(NotOpened(ref))
      else Serve(file.value[ref].opensTo, ref)
    case Manager(reachable, holds) => if reachable then Serve(Lookup(holds, ref), ref) else Raised(Unavailable)
    case Layered(layers) => FetchFirst(layers, ref, None)
  }

  function FetchFirst(layers: seq<Store>, ref: Ref, lastError: Option<Error>): Fetched {
    if layers == [] then Raised(if lastError.Some? then lastError.value else NoSecret(ref))
    else
      match Fetch(layers[0], ref)
      case Got(material) => Got(material)
      case Raised(error) => FetchFirst(layers[1..], ref, Some(error))
  }

  function Describe(s: Store, ref: Ref): Described {
    match s
    case Memory(entries) => DescribeStored(Lookup(entries, ref), None)
    case Environment(parsed) =>
      if parsed.None? then Failed(NotSet) else DescribeStored(LookupEntry(parsed.value, ref), None)
    case Sealed(file) =>
      if file.None? then Failed(NotReadable)
      else if ref !in file.value then Nothing
      else if file.value[ref].opensTo.None? then Failed(NotOpened(ref))
      else DescribeStored(file.value[ref].opensTo, Some(file.value[ref].updatedAt))
    case Manager(reachable, holds) =>
      if reachable then DescribeStored(Lookup(holds, ref), None) else Failed(Unavailable)
    case Layered(layers) => DescribeFirst(layers, ref, None)
  }

  function DescribeFirst(layers: seq<Store>, ref: Ref, failure: Option<Error>): Described {
    if layers == [] then (if failure.Some? then Failed(failure.value) else Nothing)
    else
      match Describe(layers[0], ref)
      case Said(description) => Said(description)
      case Nothing => DescribeFirst(layers[1..], ref, failure)
      case Failed(error) => DescribeFirst(layers[1..], ref, if failure.Some? then failure else Some(error))
  }

  method FetchLayers(layers: seq<Store>, ref: Ref) returns (r: Fetched)
    ensures r == Fetch(Layered(layers), ref)
  {
    var lastError: Option<Error> := None;
    for i := 0 to |layers|
      invariant FetchFirst(layers, ref, None) == FetchFirst(layers[i..], ref, lastError)
    {
      assert layers[i..][0] == layers[i] && layers[i..][1..] == layers[i + 1..];
      match Fetch(layers[i], ref)
      case Got(material) => return Got(material);
      case Raised(error) => lastError := Some(error);
    }
    return Raised(if lastError.Some? then lastError.value else NoSecret(ref));
  }

  method DescribeLayers(layers: seq<Store>, ref: Ref) returns (r: Described)
    ensures r == Describe(Layered(layers), ref)
  {
    var failure: Option<Error> := None;
    for i := 0 to |layers|
      invariant DescribeFirst(layers, ref, None) == DescribeFirst(layers[i..], ref, failure)
    {
      assert layers[i..][0] == layers[i] && layers[i..][1..] == layers[i + 1..];
      match Describe(layers[i], ref)
      case Said(description) => return Said(description);
      case Nothing =>
      case Failed(error) => failure := if failure.Some? then failure else Some(error);
    }
    return if failure.Some? then Failed(failure.value) else Nothing;
  }

  // ---------- The story both must tell ----------

  /** What one layer can be said to know of a reference. */
  datatype Knowledge = Holds(material: Material, updatedAt: Option<int>) | Empty | Broken(error: Error)

  function Knows(s: Store, ref: Ref): Knowledge
    requires !s.Layered?
  {
    match s
    case Memory(entries) => Holding(Lookup(entries, ref), None)
    case Environment(parsed) => if parsed.None? then Broken(NotSet) else Holding(LookupEntry(parsed.value, ref), None)
    case Sealed(file) =>
      if file.None? then Broken(NotReadable)
      else if ref !in file.value then Empty
      else if file.value[ref].opensTo.None? then Broken(NotOpened(ref))
      else Holding(file.value[ref].opensTo, Some(file.value[ref].updatedAt))
    case Manager(reachable, holds) => if reachable then Holding(Lookup(holds, ref), None) else Broken(Unavailable)
  }

  function Holding(found: Option<Material>, updatedAt: Option<int>): Knowledge {
    if found.Some? && found.value != map[] then Holds(found.value, updatedAt) else Empty
  }

  /** The layers that are not layered themselves, in the order they are asked. */
  function Leaves(s: Store): seq<Store>
    decreases s, 0
  {
    match s
    case Layered(layers) => LeavesOf(layers)
    case Memory(_) => [s]
    case Environment(_) => [s]
    case Sealed(_) => [s]
    case Manager(_, _) => [s]
  }

  function LeavesOf(layers: seq<Store>): seq<Store> {
    if layers == [] then [] else Leaves(layers[0]) + LeavesOf(layers[1..])
  }

  predicate AllLeaves(leaves: seq<Store>) {
    forall i | 0 <= i < |leaves| :: !leaves[i].Layered?
  }

  lemma {:induction false} LeavesAreLeaves(s: Store)
    ensures AllLeaves(Leaves(s))
    ensures Built(s) ==> Leaves(s) != []
    decreases s, 0
  {
    if s.Layered? {
      LeavesOfAreLeaves(s.layers);
    }
  }

  lemma {:induction false} LeavesOfAreLeaves(layers: seq<Store>)
    ensures AllLeaves(LeavesOf(layers))
    ensures layers != [] && Built(layers[0]) ==> LeavesOf(layers) != []
    decreases layers
  {
    if layers != [] {
      LeavesAreLeaves(layers[0]);
      LeavesOfAreLeaves(layers[1..]);
    }
  }

  lemma FetchOfLeaf(s: Store, ref: Ref)
    requires !s.Layered?
    ensures Fetch(s, ref) ==
            match Knows(s, ref)
            case Holds(material, _) => Got(material)
            case Empty => Raised(NoSecret(ref))
            case Broken(error) => Raised(error)
  {
  }

  lemma DescribeOfLeaf(s: Store, ref: Ref)
    requires !s.Layered?
    ensures Describe(s, ref) ==
            match Knows(s, ref)
            case Holds(material, at) => Said(DescribeMaterial(material, at))
            case Empty => Nothing
            case Broken(error) => Failed(error)
  {
    hide DescribeMaterial;
  }

  /** A secret whose one field is named `__proto__` is served, and described as having no field. */
  lemma ProtoFieldIsNotShown(ref: Ref, value: string)
    ensures var s := Memory(map[ref := map[PROTO := value]]);
            && Fetch(s, ref) == Got(map[PROTO := value])
            && Describe(s, ref) == Said(Description(None, map[]))
  {
    var material: Material := map[PROTO := value];
    assert PROTO in material && IsStored(material);
    assert DescribeMaterial(material, None).fields == map[];
  }

  /** An identifier is masked and anything else digested: of a long identifier six letters and four are shown. */
  lemma FieldsAreMaskedExactly(name: string, value: string)
    ensures name == "clientId" || name == "appId" || name == "applicationId" ==>
              DescribeField(name, value) ==
              Masked(if |value| > 10 then value[..6] + ['…'] + value[|value| - 4..] else ['…'])
    ensures name != "clientId" && name != "appId" && name != "applicationId" ==>
              DescribeField(name, value) == Fingerprint(value)
  {
  }

  /** So two long identifiers with the same ends are described alike: what is between is not shown. */
  lemma MiddlesAreHidden(name: string, before: string, middle: string, other: string, after: string)
    requires name in NOT_SECRET && |before| == 6 && |after| == 4 && middle != "" && other != ""
    ensures DescribeField(name, before + middle + after) == DescribeField(name, before + other + after)
  {
    assert (before + middle + after)[..6] == before == (before + other + after)[..6];
    assert (before + middle + after)[|middle| + 6..] == after == (before + other + after)[|other| + 6..];
  }

  /** What each kind of store gives, read off what it holds. */
  lemma StoresGiveExactly(ref: Ref, m: Material)
    ensures forall entries ::
              Fetch(Memory(entries), ref) == Got(m) <==> m != map[] && ref in entries && entries[ref] == m
    ensures forall parsed ::
              Fetch(Environment(parsed), ref) == Got(m) <==>
              m != map[] && parsed.Some? && ref in parsed.value && parsed.value[ref] == Some(m)
    ensures forall file: Option<map<Ref, Kept>> ::
              Fetch(Sealed(file), ref) == Got(m) <==>
              m != map[] && file.Some? && ref in file.value && file.value[ref].opensTo == Some(m)
    ensures forall reachable, holds ::
              Fetch(Manager(reachable, holds), ref) == Got(m) <==>
              m != map[] && reachable && ref in holds && holds[ref] == m
  {
  }

  /** And when a store fails rather than says nothing. */
  lemma StoresFailExactly(ref: Ref)
    ensures forall entries :: !Describe(Memory(entries), ref).Failed?
    ensures forall parsed :: Describe(Environment(parsed), ref).Failed? <==> parsed.None?
    ensures forall file: Option<map<Ref, Kept>> ::
              Describe(Sealed(file), ref).Failed? <==>
              file.None? || (ref in file.value && file.value[ref].opensTo.None?)
    ensures forall reachable, holds :: Describe(Manager(reachable, holds), ref).Failed? <==> !reachable
  {
  }

  // ---------- Nested layers are the flattened list ----------

  lemma {:induction false} FetchFirstConcat(a: seq<Store>, b: seq<Store>, ref: Ref, last: Option<Error>)
    requires a != []
    ensures FetchFirst(a + b, ref, last) ==
            match FetchFirst(a, ref, None)
            case Got(material) => Got(material)
            case Raised(error) => FetchFirst(b, ref, Some(error))
  {
    hide Fetch;
    assert (a + b)[0] == a[0] && (a + b)[1..] == a[1..] + b;
    if |a| == 1 {
      assert a[1..] + b == b;
    } else {
      match Fetch(a[0], ref)
      case Got(_) =>
      case Raised(error) =>
        FetchFirstConcat(a[1..], b, ref, Some(error));
        LastErrorIsOwn(a[1..], ref, Some(error));
    }
  }

  /** Asking at least one layer forgets the error carried in. */
  lemma LastErrorIsOwn(a: seq<Store>, ref: Ref, last: Option<Error>)
    requires a != []
    ensures FetchFirst(a, ref, last) == FetchFirst(a, ref, None)
  {
  }

  lemma {:induction false} FetchFlattens(s: Store, ref: Ref)
    requires Built(s)
    ensures Leaves(s) != [] && Fetch(s, ref) == FetchFirst(Leaves(s), ref, None)
    decreases s, 0
  {
    LeavesAreLeaves(s);
    if s.Layered? {
      FetchFirstFlattens(s.layers, ref, None);
    }
  }

  lemma {:induction false} FetchFirstFlattens(layers: seq<Store>, ref: Ref, last: Option<Error>)
    requires forall i | 0 <= i < |layers| :: Built(layers[i])
    ensures FetchFirst(layers, ref, last) == FetchFirst(LeavesOf(layers), ref, last)
    decreases layers
  {
    if layers != [] {
      hide Fetch, Built;
      FetchFlattens(layers[0], ref);
      FetchFirstConcat(Leaves(layers[0]), LeavesOf(layers[1..]), ref, last);
      match Fetch(layers[0], ref)
      case Got(_) =>
      case Raised(error) => FetchFirstFlattens(layers[1..], ref, Some(error));
    }
  }

  lemma {:induction false} DescribeFirstConcat(a: seq<Store>, b: seq<Store>, ref: Ref, failure: Option<Error>)
    ensures DescribeFirst(a + b, ref, failure) ==
            match DescribeFirst(a, ref, None)
            case Said(description) => Said(description)
            case Nothing => DescribeFirst(b, ref, failure)
            case Failed(error) => DescribeFirst(b, ref, if failure.Some? then failure else Some(error))
  {
    hide Describe;
    if a == [] {
      assert a + b == b;
    } else {
      assert (a + b)[0] == a[0] && (a + b)[1..] == a[1..] + b;
      match Describe(a[0], ref)
      case Said(_) =>
      case Nothing => DescribeFirstConcat(a[1..], b, ref, failure);
      case Failed(error) =>
        DescribeFirstConcat(a[1..], b, ref, if failure.Some? then failure else Some(error));
        FailureSticks(a[1..], ref, error);
    }
  }

  lemma FailureSticks(a: seq<Store>, ref: Ref, error: Error)
    ensures DescribeFirst(a, ref, Some(error)) ==
            if DescribeFirst(a, ref, None).Said? then DescribeFirst(a, ref, None) else Failed(error)
  {
    hide Describe;
    if a != [] {
      match Describe(a[0], ref)
      case Said(_) =>
      case Nothing => FailureSticks(a[1..], ref, error);
      case Failed(other) => FailureSticks(a[1..], ref, error); FailureSticks(a[1..], ref, other);
    }
  }

  lemma {:induction false} DescribeFlattens(s: Store, ref: Ref)
    ensures Describe(s, ref) == DescribeFirst(Leaves(s), ref, None)
    decreases s, 0
  {
    if s.Layered? {
      DescribeFirstFlattens(s.layers, ref, None);
    }
  }

  lemma {:induction false} DescribeFirstFlattens(layers: seq<Store>, ref: Ref, failure: Option<Error>)
    ensures DescribeFirst(layers, ref, failure) == DescribeFirst(LeavesOf(layers), ref, failure)
    decreases layers
  {
    if layers != [] {
      hide Describe;
      DescribeFlattens(layers[0], ref);
      DescribeFirstConcat(Leaves(layers[0]), LeavesOf(layers[1..]), ref, failure);
      match Describe(layers[0], ref)
      case Said(_) =>
      case Nothing => DescribeFirstFlattens(layers[1..], ref, failure);
      case Failed(error) => DescribeFirstFlattens(layers[1..], ref, if failure.Some? then failure else Some(error));
    }
  }

  /** However layers are nested, they answer as the flat list of their leaves does. */
  lemma NestingDoesNotMatter(s: Store, ref: Ref)
    requires Built(s)
    ensures Fetch(s, ref) == Fetch(Layered(Leaves(s)), ref)
    ensures Describe(s, ref) == Describe(Layered(Leaves(s)), ref)
  {
    FetchFlattens(s, ref);
    DescribeFlattens(s, ref);
  }

  // ---------- fetch and describe tell the same story ----------

  predicate FirstHolder(leaves: seq<Store>, ref: Ref, i: nat)
    requires AllLeaves(leaves)
  {
    i < |leaves| && Knows(leaves[i], ref).Holds? && forall k | 0 <= k < i :: !Knows(leaves[k], ref).Holds?
  }

  predicate NoHolder(leaves: seq<Store>, ref: Ref)
    requires AllLeaves(leaves)
  {
    forall k | 0 <= k < |leaves| :: !Knows(leaves[k], ref).Holds?
  }

  predicate FirstBroken(leaves: seq<Store>, ref: Ref, i: nat)
    requires AllLeaves(leaves)
  {
    i < |leaves| && Knows(leaves[i], ref).Broken? && forall k | 0 <= k < i :: !Knows(leaves[k], ref).Broken?
  }

  lemma {:induction false} FetchAtHolder(leaves: seq<Store>, ref: Ref, last: Option<Error>, i: nat)
    requires AllLeaves(leaves) && FirstHolder(leaves, ref, i)
    ensures FetchFirst(leaves, ref, last) == Got(Knows(leaves[i], ref).material)
  {
    hide Fetch, Knows;
    FetchOfLeaf(leaves[0], ref);
    if i > 0 {
      assert !Knows(leaves[0], ref).Holds?;
      FetchAtHolder(leaves[1..], ref, Some(Fetch(leaves[0], ref).error), i - 1);
    }
  }

  /** With no holder, fetch raises what the last layer raised. */
  lemma {:induction false} FetchWithoutHolder(leaves: seq<Store>, ref: Ref, last: Option<Error>)
    requires AllLeaves(leaves) && NoHolder(leaves, ref) && leaves != []
    ensures FetchFirst(leaves, ref, last) ==
            Raised(if Knows(leaves[|leaves| - 1], ref).Broken?
                   then Knows(leaves[|leaves| - 1], ref).error else NoSecret(ref))
  {
    hide Fetch, Knows;
    FetchOfLeaf(leaves[0], ref);
    assert !Knows(leaves[0], ref).Holds?;
    if |leaves| > 1 {
      FetchWithoutHolder(leaves[1..], ref, Some(Fetch(leaves[0], ref).error));
    }
  }

  lemma {:induction false} DescribeAtHolder(leaves: seq<Store>, ref: Ref, failure: Option<Error>, i: nat)
    requires AllLeaves(leaves) && FirstHolder(leaves, ref, i)
    ensures DescribeFirst(leaves, ref, failure) ==
            Said(DescribeMaterial(Knows(leaves[i], ref).material, Knows(leaves[i], ref).updatedAt))
  {
    hide Describe, Knows, DescribeMaterial;
    DescribeOfLeaf(leaves[0], ref);
    if i > 0 {
      assert !Knows(leaves[0], ref).Holds?;
      match Describe(leaves[0], ref)
      case Nothing => DescribeAtHolder(leaves[1..], ref, failure, i - 1);
      case Failed(error) => DescribeAtHolder(leaves[1..], ref, if failure.Some? then failure else Some(error), i - 1);
    }
  }

  lemma {:induction false} DescribeWithoutHolder(leaves: seq<Store>, ref: Ref, failure: Option<Error>)
    requires AllLeaves(leaves) && NoHolder(leaves, ref)
    ensures failure.Some? ==> DescribeFirst(leaves, ref, failure) == Failed(failure.value)
    ensures failure.None? ==> forall i: nat :: FirstBroken(leaves, ref, i) ==>
              DescribeFirst(leaves, ref, failure) == Failed(Knows(leaves[i], ref).error)
    ensures failure.None? && (forall k | 0 <= k < |leaves| :: Knows(leaves[k], ref).Empty?) ==>
              DescribeFirst(leaves, ref, failure) == Nothing
  {
    hide Describe, Knows;
    if leaves != [] {
      DescribeOfLeaf(leaves[0], ref);
      assert !Knows(leaves[0], ref).Holds?;
      var next := if failure.None? && Knows(leaves[0], ref).Broken? then Some(Knows(leaves[0], ref).error) else failure;
      DescribeWithoutHolder(leaves[1..], ref, next);
      forall i: nat | FirstBroken(leaves, ref, i) && failure.None?
        ensures DescribeFirst(leaves, ref, failure) == Failed(Knows(leaves[i], ref).error)
      {
        if i > 0 {
          assert !Knows(leaves[0], ref).Broken? && FirstBroken(leaves[1..], ref, i - 1);
        }
      }
    }
  }

  /**
   The layer whose material fetch returns is the layer describe describes, and it is the first
   that holds the reference, whatever earlier layers failed.
   */
  lemma SameStoryWhenHeld(s: Store, ref: Ref, i: nat)
    requires Built(s) && AllLeaves(Leaves(s)) && FirstHolder(Leaves(s), ref, i)
    ensures Fetch(s, ref) == Got(Knows(Leaves(s)[i], ref).material)
    ensures Describe(s, ref) ==
            Said(DescribeMaterial(Knows(Leaves(s)[i], ref).material, Knows(Leaves(s)[i], ref).updatedAt))
  {
    FetchFlattens(s, ref);
    DescribeFlattens(s, ref);
    FetchAtHolder(Leaves(s), ref, None, i);
    DescribeAtHolder(Leaves(s), ref, None, i);
  }

  /**
   With no holder, fetch raises what the last layer raised, and describe says "nothing" exactly
   when every layer said it, and otherwise raises the earliest layer's failure.
   */
  lemma SameStoryWhenNotHeld(s: Store, ref: Ref)
    requires Built(s) && AllLeaves(Leaves(s)) && NoHolder(Leaves(s), ref)
    ensures Leaves(s) != []
    ensures var last := Knows(Leaves(s)[|Leaves(s)| - 1], ref);
            Fetch(s, ref) == Raised(if last.Broken? then last.error else NoSecret(ref))
    ensures Describe(s, ref) == Nothing <==> forall k | 0 <= k < |Leaves(s)| :: Knows(Leaves(s)[k], ref).Empty?
    ensures forall i: nat :: FirstBroken(Leaves(s), ref, i) ==>
              Describe(s, ref) == Failed(Knows(Leaves(s)[i], ref).error)
  {
    hide Knows, Fetch, Describe;
    var leaves := Leaves(s);
    FetchFlattens(s, ref);
    DescribeFlattens(s, ref);
    FetchWithoutHolder(leaves, ref, None);
    DescribeWithoutHolder(leaves, ref, None);
    if k :| 0 <= k < |leaves| && Knows(leaves[k], ref).Broken? {
      var i := SomeFirstBroken(leaves, ref, k);
    }
  }

  lemma {:induction false} SomeFirstBroken(leaves: seq<Store>, ref: Ref, k: nat) returns (i: nat)
    requires AllLeaves(leaves) && k < |leaves| && Knows(leaves[k], ref).Broken?
    ensures FirstBroken(leaves, ref, i)
  {
    hide Knows;
    if j :| 0 <= j < k && Knows(leaves[j], ref).Broken? {
      i := SomeFirstBroken(leaves, ref, j);
    } else {
      i := k;
    }
  }

  lemma {:induction false} SomeFirstHolder(leaves: seq<Store>, ref: Ref, k: nat) returns (i: nat)
    requires AllLeaves(leaves) && k < |leaves| && Knows(leaves[k], ref).Holds?
    ensures FirstHolder(leaves, ref, i)
  {
    hide Knows;
    if j :| 0 <= j < k && Knows(leaves[j], ref).Holds? {
      i := SomeFirstHolder(leaves, ref, j);
    } else {
      i := k;
    }
  }

  /** Both directions at once: a fetch succeeds exactly when describe has something to say, of that material. */
  lemma FetchAndDescribeAgree(s: Store, ref: Ref)
    requires Built(s)
    ensures Fetch(s, ref).Got? <==> Describe(s, ref).Said?
    ensures Fetch(s, ref).Got? ==>
              IsStored(Fetch(s, ref).material)
              && exists at :: Describe(s, ref) == Said(DescribeMaterial(Fetch(s, ref).material, at))
  {
    hide Knows, Fetch, Describe, DescribeMaterial, Built;
    LeavesAreLeaves(s);
    var leaves := Leaves(s);
    if k :| 0 <= k < |leaves| && Knows(leaves[k], ref).Holds? {
      var i := SomeFirstHolder(leaves, ref, k);
      SameStoryWhenHeld(s, ref, i);
      HeldIsStored(leaves[i], ref);
    } else {
      SameStoryWhenNotHeld(s, ref);
      if j :| 0 <= j < |leaves| && Knows(leaves[j], ref).Broken? {
        var i := SomeFirstBroken(leaves, ref, j);
      }
    }
  }

  lemma HeldIsStored(s: Store, ref: Ref)
    requires !s.Layered? && Knows(s, ref).Holds?
    ensures IsStored(Knows(s, ref).material)
  {
  }

  // ---------- Writing ----------

  datatype Written = Stored(store: Store) | Refused(error: Error)

  predicate Writable(s: Store) {
    match s
    case Memory(_) => true
    case Environment(_) => false
    case Sealed(_) => true
    case Manager(_, _) => true
    case Layered(layers) => exists i :: 0 <= i < |layers| && Writable(layers[i])
  }

  function Put(s: Store, ref: Ref, m: Material, at: int): Written {
    match s
    case Memory(entries) => Stored(Memory(entries[ref := m]))
    case Environment(_) => Refused(NotWritable)
    case Sealed(file) =>
      if file.None? then Refused(NotReadable) else Stored(Sealed(Some(file.value[ref := Kept(Some(m), at)])))
    case Manager(reachable, holds) => if reachable then Stored(Manager(true, holds[ref := m])) else Refused(Unavailable)
    case Layered(layers) =>
      match PutFirst(layers, ref, m, at)
      case None => Refused(NotWritable)
      case Some((written, i)) =>
        if written.Stored? && i < |layers| then Stored(Layered(layers[i := written.store])) else written
  }

  /** The first writable layer's answer, and which layer that is. */
  function PutFirst(layers: seq<Store>, ref: Ref, m: Material, at: int): Option<(Written, nat)> {
    if layers == [] then None
    else if Writable(layers[0]) then Some((Put(layers[0], ref, m, at), 0))
    else
      match PutFirst(layers[1..], ref, m, at)
      case None => None
      case Some((written, i)) => Some((written, i + 1))
  }

  /**
   Which stores take a put: all but the environment are asked, and one that is asked takes it
   unless its file cannot be read or its manager cannot be reached.  A taken put leaves the
   material under the reference, whatever it was.
   */
  lemma StoresTakeExactly(s: Store, ref: Ref, m: Material, at: int)
    requires !s.Layered?
    ensures Writable(s) <==> s.Memory? || s.Sealed? || s.Manager?
    ensures Put(s, ref, m, at).Stored? <==> s.Memory? || (s.Sealed? && s.file.Some?) || (s.Manager? && s.reachable)
    ensures s.Environment? ==> Put(s, ref, m, at) == Refused(NotWritable)
    ensures s.Sealed? && s.file.None? ==> Put(s, ref, m, at) == Refused(NotReadable)
    ensures s.Manager? && !s.reachable ==> Put(s, ref, m, at) == Refused(Unavailable)
    ensures m != map[] && Put(s, ref, m, at).Stored? ==>
              && Fetch(Put(s, ref, m, at).store, ref) == Got(m)
              && Put(s, ref, m, at).store.Memory? == s.Memory? && Put(s, ref, m, at).store.Sealed? == s.Sealed?
  {
  }

  method PutLayers(layers: seq<Store>, ref: Ref, m: Material, at: int) returns (r: Written)
    ensures r == Put(Layered(layers), ref, m, at)
  {
    for i := 0 to |layers|
      invariant forall k | 0 <= k < i :: !Writable(layers[k])
    {
      if Writable(layers[i]) {
        PutFirstIs(layers, ref, m, at, i);
        var written := Put(layers[i], ref, m, at);
        return if written.Stored? then Stored(Layered(layers[i := written.store])) else written;
      }
    }
    PutFirstIsNone(layers, ref, m, at);
    return Refused(NotWritable);
  }

  lemma {:induction false} PutFirstIs(layers: seq<Store>, ref: Ref, m: Material, at: int, i: nat)
    requires i < |layers| && Writable(layers[i]) && forall k | 0 <= k < i :: !Writable(layers[k])
    ensures PutFirst(layers, ref, m, at) == Some((Put(layers[i], ref, m, at), i))
  {
    hide Writable, Put;
    if i > 0 {
      PutFirstIs(layers[1..], ref, m, at, i - 1);
    }
  }

  lemma {:induction false} PutFirstIsNone(layers: seq<Store>, ref: Ref, m: Material, at: int)
    requires forall k | 0 <= k < |layers| :: !Writable(layers[k])
    ensures PutFirst(layers, ref, m, at) == None
  {
    hide Writable, Put;
    if layers != [] {
      PutFirstIsNone(layers[1..], ref, m, at);
    }
  }

  predicate FirstWritable(leaves: seq<Store>, i: nat) {
    i < |leaves| && Writable(leaves[i]) && forall k | 0 <= k < i :: !Writable(leaves[k])
  }

  predicate SomeWritable(stores: seq<Store>) {
    exists i :: 0 <= i < |stores| && Writable(stores[i])
  }

  /** A store accepts writes exactly when one of its leaves does. */
  lemma {:induction false} WritableByLeaf(s: Store)
    ensures Writable(s) <==> SomeWritable(Leaves(s))
    decreases s, 0
  {
    if s.Layered? {
      WritableByLeafOf(s.layers);
      assert Writable(s) <==> SomeWritable(s.layers);
    } else {
      hide Writable;
      assert Leaves(s) == [s];
      assert Writable(s) ==> Writable(Leaves(s)[0]);
    }
  }

  lemma {:induction false} WritableByLeafOf(layers: seq<Store>)
    ensures SomeWritable(layers) <==> SomeWritable(LeavesOf(layers))
    decreases layers
  {
    if layers != [] {
      hide Writable;
      WritableByLeaf(layers[0]);
      WritableByLeafOf(layers[1..]);
      var mine, rest := Leaves(layers[0]), LeavesOf(layers[1..]);
      assert forall k | 0 <= k < |mine| :: LeavesOf(layers)[k] == mine[k];
      assert forall k | 0 <= k < |rest| :: LeavesOf(layers)[|mine| + k] == rest[k];
      assert forall i | 0 <= i < |layers| - 1 :: layers[1..][i] == layers[i + 1];
    }
  }

  /** What becomes of the leaves when leaf i is the one written. */
  ghost predicate WritesLeaf(before: seq<Store>, i: nat, leaf: Written, after: Written)
    requires i < |before|
  {
    match leaf
    case Stored(store) => after.Stored? && Leaves(after.store) == before[i := store]
    case Refused(error) => after == Refused(error)
  }

  /** A put lands in the first leaf that accepts writes, however the layers are nested, and in no other. */
  lemma {:induction false} PutGoesToTheFirstWritable(s: Store, ref: Ref, m: Material, at: int, i: nat)
    requires FirstWritable(Leaves(s), i)
    ensures WritesLeaf(Leaves(s), i, Put(Leaves(s)[i], ref, m, at), Put(s, ref, m, at))
    decreases s, 0
  {
    if s.Layered? {
      PutFirstWritesLeaf(s.layers, ref, m, at, i);
    } else if Put(s, ref, m, at).Stored? {
      LeafStaysALeaf(s, ref, m, at);
    }
  }

  lemma LeafStaysALeaf(s: Store, ref: Ref, m: Material, at: int)
    requires !s.Layered? && Put(s, ref, m, at).Stored?
    ensures !Put(s, ref, m, at).store.Layered? && Leaves(Put(s, ref, m, at).store) == [Put(s, ref, m, at).store]
  {
  }

  /** What becomes of the leaves of a list of layers when leaf i is the one written. */
  ghost predicate WritesLeafOf(layers: seq<Store>, i: nat, leaf: Written, r: Option<(Written, nat)>) {
    && i < |LeavesOf(layers)|
    && r.Some? && r.value.1 < |layers|
    && match leaf
       case Stored(store) =>
         r.value.0.Stored? && LeavesOf(layers[r.value.1 := r.value.0.store]) == LeavesOf(layers)[i := store]
       case Refused(error) => r.value.0 == Refused(error)
  }

  lemma {:induction false} PutFirstWritesLeaf(layers: seq<Store>, ref: Ref, m: Material, at: int, i: nat)
    requires FirstWritable(LeavesOf(layers), i)
    ensures WritesLeafOf(layers, i, Put(LeavesOf(layers)[i], ref, m, at), PutFirst(layers, ref, m, at))
    decreases layers
  {
    assert i < |LeavesOf(layers)| && layers != [];
    hide Writable, Put, WritesLeafOf, WritesLeaf, FirstWritable, PutFirst, SomeWritable;
    var mine, rest, leaf := Leaves(layers[0]), LeavesOf(layers[1..]), LeavesOf(layers)[i];
    WritableByLeaf(layers[0]);
    FirstWritableOfTwo(mine, rest, i);
    if i < |mine| {
      PutGoesToTheFirstWritable(layers[0], ref, m, at, i);
      WritesHead(layers, i, Put(leaf, ref, m, at), Put(layers[0], ref, m, at));
      PutFirstHere(layers, ref, m, at);
    } else {
      PutFirstWritesLeaf(layers[1..], ref, m, at, i - |mine|);
      WritesTail(layers, i, Put(leaf, ref, m, at), PutFirst(layers[1..], ref, m, at));
      PutFirstLater(layers, ref, m, at);
    }
  }

  lemma FirstWritableOfTwo(mine: seq<Store>, rest: seq<Store>, i: nat)
    requires FirstWritable(mine + rest, i)
    ensures i < |mine| ==> FirstWritable(mine, i) && SomeWritable(mine) && (mine + rest)[i] == mine[i]
    ensures |mine| <= i ==>
              FirstWritable(rest, i - |mine|) && !SomeWritable(mine) && (mine + rest)[i] == rest[i - |mine|]
  {
    hide Writable;
    assert forall k | 0 <= k < |mine| :: (mine + rest)[k] == mine[k];
    assert forall k | 0 <= k < |rest| :: (mine + rest)[k + |mine|] == rest[k];
  }

  lemma PutFirstHere(layers: seq<Store>, ref: Ref, m: Material, at: int)
    requires layers != [] && Writable(layers[0])
    ensures PutFirst(layers, ref, m, at) == Some((Put(layers[0], ref, m, at), 0))
  {
    hide Put, Writable;
  }

  lemma PutFirstLater(layers: seq<Store>, ref: Ref, m: Material, at: int)
    requires layers != [] && !Writable(layers[0]) && PutFirst(layers[1..], ref, m, at).Some?
    ensures var r := PutFirst(layers[1..], ref, m, at).value;
            PutFirst(layers, ref, m, at) == Some((r.0, r.1 + 1))
  {
    hide Put, Writable;
  }

  lemma WritesHead(layers: seq<Store>, i: nat, leaf: Written, put: Written)
    requires layers != [] && i < |Leaves(layers[0])| && WritesLeaf(Leaves(layers[0]), i, leaf, put)
    ensures WritesLeafOf(layers, i, leaf, Some((put, 0)))
  {
    if put.Stored? {
      assert layers[0 := put.store][1..] == layers[1..];
    }
  }

  lemma WritesTail(layers: seq<Store>, i: nat, leaf: Written, r: Option<(Written, nat)>)
    requires layers != [] && |Leaves(layers[0])| <= i && WritesLeafOf(layers[1..], i - |Leaves(layers[0])|, leaf, r)
    ensures r.Some? && WritesLeafOf(layers, i, leaf, Some((r.value.0, r.value.1 + 1)))
  {
    if r.value.0.Stored? {
      assert layers[r.value.1 + 1 := r.value.0.store][1..] == layers[1..][r.value.1 := r.value.0.store];
    }
  }

  lemma {:induction false} NowhereToWrite(s: Store, ref: Ref, m: Material, at: int)
    requires forall k | 0 <= k < |Leaves(s)| :: !Writable(Leaves(s)[k])
    ensures Put(s, ref, m, at) == Refused(NotWritable)
  {
    WritableByLeaf(s);
    if s.Layered? {
      PutFirstIsNone(s.layers, ref, m, at);
    }
  }

  lemma PutKeepsBuilt(s: Store, ref: Ref, m: Material, at: int)
    requires Built(s) && Put(s, ref, m, at).Stored?
    ensures Built(Put(s, ref, m, at).store)
    decreases s, 0
  {
    if s.Layered? {
      PutFirstKeepsBuilt(s.layers, ref, m, at);
    }
  }

  lemma {:induction false} PutFirstKeepsBuilt(layers: seq<Store>, ref: Ref, m: Material, at: int)
    requires forall i | 0 <= i < |layers| :: Built(layers[i])
    ensures var r := PutFirst(layers, ref, m, at);
            r.Some? ==> (r.value.1 < |layers| && (r.value.0.Stored? ==> Built(r.value.0.store)))
    decreases layers
  {
    hide Put, Writable, Built;
    if layers != [] {
      if Writable(layers[0]) {
        if Put(layers[0], ref, m, at).Stored? {
          PutKeepsBuilt(layers[0], ref, m, at);
        }
      } else {
        PutFirstKeepsBuilt(layers[1..], ref, m, at);
      }
    }
  }

  // ---------- A put and the fetch that follows it ----------

  lemma WrittenLeafKnows(s: Store, ref: Ref, m: Material, at: int, other: Ref)
    requires !s.Layered? && Put(s, ref, m, at).Stored?
    ensures !Put(s, ref, m, at).store.Layered?
    ensures other != ref ==> Knows(Put(s, ref, m, at).store, other) == Knows(s, other)
    ensures Knows(Put(s, ref, m, at).store, ref) == Holding(Some(m), if s.Sealed? then Some(at) else None)
  {
  }

  lemma {:induction false} SameKnowledgeSameAnswers(a: seq<Store>, b: seq<Store>, ref: Ref, last: Option<Error>)
    requires AllLeaves(a) && AllLeaves(b) && |a| == |b|
    requires forall k | 0 <= k < |a| :: Knows(a[k], ref) == Knows(b[k], ref)
    ensures FetchFirst(a, ref, last) == FetchFirst(b, ref, last)
    ensures DescribeFirst(a, ref, last) == DescribeFirst(b, ref, last)
  {
    hide Knows, Fetch, Describe, DescribeMaterial;
    if a != [] {
      assert Knows(a[0], ref) == Knows(b[0], ref);
      FetchOfLeaf(a[0], ref);
      FetchOfLeaf(b[0], ref);
      DescribeOfLeaf(a[0], ref);
      DescribeOfLeaf(b[0], ref);
      forall last'
        ensures FetchFirst(a[1..], ref, last') == FetchFirst(b[1..], ref, last')
        ensures DescribeFirst(a[1..], ref, last') == DescribeFirst(b[1..], ref, last')
      {
        SameKnowledgeSameAnswers(a[1..], b[1..], ref, last');
      }
    }
  }

  /** A put under one reference changes nothing any other reference answers. */
  lemma OtherReferencesAreUntouched(s: Store, ref: Ref, m: Material, at: int, other: Ref)
    requires Built(s) && Put(s, ref, m, at).Stored? && other != ref
    ensures Fetch(Put(s, ref, m, at).store, other) == Fetch(s, other)
    ensures Describe(Put(s, ref, m, at).store, other) == Describe(s, other)
  {
    hide Put, Knows, Fetch, Describe, Writable, Built, FetchFirst, DescribeFirst;
    var s' := Put(s, ref, m, at).store;
    var i := WhereItLands(s, ref, m, at);
    LeavesAreLeaves(s);
    PutGoesToTheFirstWritable(s, ref, m, at, i);
    WrittenLeafKnows(Leaves(s)[i], ref, m, at, other);
    PutKeepsBuilt(s, ref, m, at);
    LeavesAreLeaves(s');
    FetchFlattens(s, other);
    FetchFlattens(s', other);
    DescribeFlattens(s, other);
    DescribeFlattens(s', other);
    SameKnowledgeSameAnswers(Leaves(s), Leaves(s'), other, None);
  }

  lemma WhereItLands(s: Store, ref: Ref, m: Material, at: int) returns (i: nat)
    requires Put(s, ref, m, at).Stored?
    ensures FirstWritable(Leaves(s), i)
  {
    hide Put, Writable;
    if k :| 0 <= k < |Leaves(s)| && Writable(Leaves(s)[k]) {
      i := SomeFirstWritable(Leaves(s), k);
    } else {
      NowhereToWrite(s, ref, m, at);
    }
  }

  lemma {:induction false} SomeFirstWritable(leaves: seq<Store>, k: nat) returns (i: nat)
    requires k < |leaves| && Writable(leaves[k])
    ensures FirstWritable(leaves, i)
  {
    hide Writable;
    if j :| 0 <= j < k && Writable(leaves[j]) {
      i := SomeFirstWritable(leaves, j);
    } else {
      i := k;
    }
  }

  /** The material that hides what leaf i holds: the first earlier leaf's, if one holds the reference. */
  predicate HiddenBy(leaves: seq<Store>, ref: Ref, i: nat, k: nat)
    requires AllLeaves(leaves)
  {
    k < i && FirstHolder(leaves, ref, k)
  }

  /**
   A fetch right after a put returns the new material exactly when the material has a field and
   no layer before the one written holds the reference, or the first that does holds the same.
   */
  lemma PutThenFetchExactly(s: Store, ref: Ref, m: Material, at: int, i: nat)
    requires Built(s) && AllLeaves(Leaves(s)) && FirstWritable(Leaves(s), i) && Put(s, ref, m, at).Stored?
    ensures Fetch(Put(s, ref, m, at).store, ref) == Got(m) <==>
            IsStored(m) && forall k: nat | HiddenBy(Leaves(s), ref, i, k) :: Knows(Leaves(s)[k], ref).material == m
  {
    hide Put, Knows, Fetch, Describe, DescribeMaterial, Writable, Built, FetchFirst, DescribeFirst;
    var s', leaves := Put(s, ref, m, at).store, Leaves(s);
    PutGoesToTheFirstWritable(s, ref, m, at, i);
    WrittenLeafKnows(leaves[i], ref, m, at, ref);
    PutKeepsBuilt(s, ref, m, at);
    var leaves' := Leaves(s');
    if k :| 0 <= k < i && Knows(leaves[k], ref).Holds? {
      var h := SomeFirstHolder(leaves[..i], ref, k);
      assert FirstHolder(leaves, ref, h) && FirstHolder(leaves', ref, h) by {
        assert forall j | 0 <= j <= h :: leaves[..i][j] == leaves[j] == leaves'[j];
      }
      assert HiddenBy(leaves, ref, i, h);
      SameStoryWhenHeld(s', ref, h);
      HeldIsStored(leaves[h], ref);
    } else if IsStored(m) {
      assert FirstHolder(leaves', ref, i);
      SameStoryWhenHeld(s', ref, i);
    } else {
      FetchAndDescribeAgree(s', ref);
    }
  }
}
