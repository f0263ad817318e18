/** Bitwise facts about 32-bit words. */
module MaskFacts {
  lemma UnionBits(a: bv32, b: bv32, mask: bv32)
    ensures (a | b) & !mask == 0 <==> a & !mask == 0 && b & !mask == 0
  {
    Distribute(a, b, mask);
    NoBits(a & !mask, b & !mask);
  }

  lemma Distribute(a: bv32, b: bv32, mask: bv32)
    ensures (a | b) & !mask == (a & !mask) | (b & !mask)
  {
  }

  lemma NoBits(a: bv32, b: bv32)
    ensures a | b == 0 <==> a == 0 && b == 0
  {
  }

  lemma MeetBits(a: bv32, b: bv32, c: bv32)
    ensures a & !(b & c) == 0 <==> a & !b == 0 && a & !c == 0
  {
  }

  lemma BitOfDifference(a: bv32, b: bv32, bit: bv32)
    requires bit & (bit - 1) == 0
    ensures (a & !b) & bit != 0 <==> a & bit != 0 && b & bit == 0
  {
    AllOrNone(a, bit);
    AllOrNone(b, bit);
    assert (a & !b) & bit == (a & bit) & !(b & bit);
  }

  lemma BitOfUnion(a: bv32, b: bv32, bit: bv32)
    ensures (a | b) & bit != 0 <==> a & bit != 0 || b & bit != 0
  {
    NoBits(a & bit, b & bit);
    assert (a | b) & bit == (a & bit) | (b & bit);
  }

  lemma BitOfMeet(a: bv32, b: bv32, bit: bv32)
    requires bit & (bit - 1) == 0
    ensures (a & b) & bit != 0 <==> a & bit != 0 && b & bit != 0
  {
    AllOrNone(a, bit);
    AllOrNone(b, bit);
    assert (a & b) & bit == (a & bit) & (b & bit);
  }

  /** Of a single bit a mask has all or nothing. */
  lemma AllOrNone(a: bv32, bit: bv32)
    requires bit & (bit - 1) == 0
    ensures a & bit == 0 || a & bit == bit
  {
  }
}

/** 32-bit masks as sets of bits. */
module Masks {
  import MaskFacts

  function Union(a: bv32, b: bv32): bv32 {
    a | b
  }

  function Meet(a: bv32, b: bv32): bv32 {
    a & b
  }

  function Without(a: bv32, b: bv32): bv32 {
    a & !b
  }

  /** `a` has no bit outside `b`. */
  predicate Within(a: bv32, b: bv32) {
    Without(a, b) == 0
  }

  predicate SingleBit(a: bv32) {
    a != 0 && a & (a - 1) == 0
  }

  /** The bit is set in the mask. */
  predicate Has(a: bv32, bit: bv32) {
    a & bit != 0
  }

  lemma BitByBit(a: bv32, b: bv32, bit: bv32)
    requires SingleBit(bit)
    ensures Has(Without(a, b), bit) <==> Has(a, bit) && !Has(b, bit)
    ensures Has(Union(a, b), bit) <==> Has(a, bit) || Has(b, bit)
    ensures Has(Meet(a, b), bit) <==> Has(a, bit) && Has(b, bit)
  {
    MaskFacts.BitOfDifference(a, b, bit);
    MaskFacts.BitOfUnion(a, b, bit);
    MaskFacts.BitOfMeet(a, b, bit);
  }

  lemma WithinUnion(a: bv32, b: bv32, mask: bv32)
    ensures Within(Union(a, b), mask) <==> Within(a, mask) && Within(b, mask)
  {
    MaskFacts.UnionBits(a, b, mask);
  }

  lemma WithinMeet(a: bv32, b: bv32, c: bv32)
    ensures Within(a, Meet(b, c)) <==> Within(a, b) && Within(a, c)
  {
    MaskFacts.MeetBits(a, b, c);
  }

  lemma NothingWithin(mask: bv32)
    ensures Within(0, mask)
  {
  }

  lemma WithinNothing(a: bv32)
    ensures Within(a, 0) <==> a == 0
  {
  }

  lemma Reflexive(a: bv32)
    ensures Within(a, a)
  {
  }
}

/**
 * Memory policy: what an endpoint demands of an allocation, what a candidate path offers, and how the demands of a
 * whole boundary combine. Masks are 32-bit words.
 */
module MemoryPolicy {
  import opened Masks

  const VERSION: bv32 := 1
  const USAGE_ALL: bv32 := 0x1F
  const RESOURCE_ALL: bv32 := 0x0F
  const OPERATIONS_ALL: bv32 := 0x0F
  const MAX_ENDPOINTS: nat := 16

  datatype MemoryResult = Ok | Invalid | VersionMismatch | Incompatible

  datatype Requirements = Requirements(
    version: bv32, required: bv32, preferred: bv32, resources: bv32, operations: bv32, reserved: (bv32, bv32, bv32))

  datatype Path = Path(version: bv32, resource: bv32, supported: bv32, operations: bv32,
    reserved: (bv32, bv32, bv32, bv32))

  datatype Decision = Decision(missing: bv32, unmet: bv32, rejected: bv32, forbidden: bv32)

  const NO_DECISION := Decision(0, 0, 0, 0)

  function Validate(r: Requirements): (e: MemoryResult)
    ensures e != Incompatible
  {
    if r.version != VERSION then VersionMismatch
    else if !Within(Union(r.required, r.preferred), USAGE_ALL) || r.resources == 0 || !Within(r.resources, RESOURCE_ALL)
      || !Within(r.operations, OPERATIONS_ALL) || r.reserved != (0, 0, 0) then Invalid
    else Ok
  }

  function ValidatePath(p: Path): (e: MemoryResult)
    ensures e != Incompatible
  {
    if p.version != VERSION then VersionMismatch
    else if !SingleBit(p.resource) || !Within(p.resource, RESOURCE_ALL)
      || !Within(p.supported, USAGE_ALL) || !Within(p.operations, OPERATIONS_ALL) || p.reserved != (0, 0, 0, 0)
        then Invalid
    else Ok
  }

  function Decide(r: Requirements, p: Path): Decision {
    Decision(Without(r.required, p.supported), Without(r.preferred, p.supported), Without(p.resource, r.resources),
             Without(p.operations, r.operations))
  }

  /** Valid requirements, as numbers: five usages, four resource types and four operations are defined. */
  lemma ValidMeaning(r: Requirements)
    ensures Validate(r) == Ok <==>
      && r.version == 1 && r.required < 32 && r.preferred < 32 && 0 < r.resources < 16 && r.operations < 16
      && r.reserved == (0, 0, 0)
    ensures Validate(r) == VersionMismatch <==> r.version != 1
  {
  }

  /** A valid path names exactly one resource type. */
  lemma ValidPathMeaning(p: Path)
    ensures ValidatePath(p) == Ok <==>
      && p.version == 1 && (p.resource == 1 || p.resource == 2 || p.resource == 4 || p.resource == 8)
      && p.supported < 32 && p.operations < 16 && p.reserved == (0, 0, 0, 0)
    ensures ValidatePath(p) == VersionMismatch <==> p.version != 1
  {
  }

  /** The diagnostics, bit by bit: demanded or preferred but not supported, of no allowed type, not permitted. */
  lemma DecisionBits(r: Requirements, p: Path, bit: bv32)
    requires SingleBit(bit)
    ensures var d := Decide(r, p);
      && (Has(d.missing, bit) <==> Has(r.required, bit) && !Has(p.supported, bit))
      && (Has(d.unmet, bit) <==> Has(r.preferred, bit) && !Has(p.supported, bit))
      && (Has(d.rejected, bit) <==> Has(p.resource, bit) && !Has(r.resources, bit))
      && (Has(d.forbidden, bit) <==> Has(p.operations, bit) && !Has(r.operations, bit))
  {
    hide Has, Without, SingleBit;
    BitByBit(r.required, p.supported, bit);
    BitByBit(r.preferred, p.supported, bit);
    BitByBit(p.resource, r.resources, bit);
    BitByBit(p.operations, r.operations, bit);
  }

  /** Missing preferences alone never reject a path. */
  predicate Accepts(d: Decision) {
    d.missing == 0 && d.rejected == 0 && d.forbidden == 0
  }

  function Evaluate(r: Requirements, p: Path): (MemoryResult, Decision) {
    if Validate(r) != Ok then (Validate(r), NO_DECISION)
    else if ValidatePath(p) != Ok then (ValidatePath(p), NO_DECISION)
    else (if Accepts(Decide(r, p)) then Ok else Incompatible, Decide(r, p))
  }

  // ---- combining requirements -----------------------------------------------------------------------

  const NEUTRAL := Requirements(VERSION, 0, 0, RESOURCE_ALL, OPERATIONS_ALL, (0, 0, 0))

  function Join(c: Requirements, r: Requirements): Requirements {
    c.(required := Union(c.required, r.required), preferred := Union(c.preferred, r.preferred),
       resources := Meet(c.resources, r.resources), operations := Meet(c.operations, r.operations))
  }

  /** Demands are united, permissions intersected. */
  function Combined(rs: seq<Requirements>): Requirements {
    if rs == [] then NEUTRAL else Join(Combined(rs[..|rs| - 1]), rs[|rs| - 1])
  }

  predicate AllValid(rs: seq<Requirements>) {
    forall i :: 0 <= i < |rs| ==> Validate(rs[i]) == Ok
  }

  /** The first validation error from `i` on, Ok for none. */
  function FirstError(rs: seq<Requirements>, i: nat): (e: MemoryResult)
    requires i <= |rs|
    ensures e == Ok <==> forall k :: i <= k < |rs| ==> Validate(rs[k]) == Ok
    decreases |rs| - i
  {
    if i == |rs| then Ok else if Validate(rs[i]) != Ok then Validate(rs[i]) else FirstError(rs, i + 1)
  }

  function CombineResult(rs: seq<Requirements>): MemoryResult {
    if rs == [] || |rs| > MAX_ENDPOINTS then Invalid
    else if FirstError(rs, 0) != Ok then FirstError(rs, 0)
    else if Combined(rs).resources == 0 then Incompatible
    else Ok
  }

  method Combine(rs: seq<Requirements>) returns (result: MemoryResult, out: Requirements)
    ensures result == CombineResult(rs) && (result == Ok ==> out == Combined(rs))
  {
    hide Validate, Union, Meet;
    out := NEUTRAL;
    if rs == [] || |rs| > MAX_ENDPOINTS {
      return Invalid, out;
    }
    var combined := NEUTRAL;
    var i := 0;
    while i < |rs|
      invariant i <= |rs| && combined == Combined(rs[..i]) && FirstError(rs, 0) == FirstError(rs, i)
    {
      result := Validate(rs[i]);
      if result != Ok {
        return;
      }
      assert rs[..i + 1][..i] == rs[..i];
      combined := Join(combined, rs[i]);
      i := i + 1;
    }
    assert rs[..i] == rs;
    if combined.resources == 0 {
      return Incompatible, out;
    }
    result, out := Ok, combined;
  }

  // ---- one boundary ---------------------------------------------------------------------------------

  /** The union of everybody's boundary operations. */
  function Operations(ps: seq<Path>): bv32 {
    if ps == [] then 0 else Union(Operations(ps[..|ps| - 1]), ps[|ps| - 1].operations)
  }

  /** What the first loop checks of endpoint `i`. */
  function EndpointError(r: Requirements, p: Path, resource: bv32): MemoryResult {
    if Validate(r) != Ok then Validate(r)
    else if ValidatePath(p) != Ok then ValidatePath(p)
    else if p.resource != resource then Invalid
    else Ok
  }

  function FirstEndpointError(rs: seq<Requirements>, ps: seq<Path>, i: nat): (e: MemoryResult)
    requires |rs| == |ps| && i <= |rs| && rs != []
    ensures e == Ok <==> forall k :: i <= k < |rs| ==> EndpointError(rs[k], ps[k], ps[0].resource) == Ok
    decreases |rs| - i
  {
    if i == |rs| then Ok
    else if EndpointError(rs[i], ps[i], ps[0].resource) != Ok then EndpointError(rs[i], ps[i], ps[0].resource)
    else FirstEndpointError(rs, ps, i + 1)
  }

  /** The i-th diagnostic: the endpoint's own path, but with everybody's operations. */
  function DecisionAt(rs: seq<Requirements>, ps: seq<Path>, i: nat): Decision
    requires |rs| == |ps| && i < |rs|
  {
    Decide(rs[i], ps[i].(operations := Operations(ps)))
  }

  ghost function BoundaryResult(rs: seq<Requirements>, ps: seq<Path>): MemoryResult
    requires |rs| == |ps|
  {
    if rs == [] || |rs| > MAX_ENDPOINTS then Invalid
    else if FirstEndpointError(rs, ps, 0) != Ok then FirstEndpointError(rs, ps, 0)
    else if forall i :: 0 <= i < |rs| ==> Accepts(DecisionAt(rs, ps, i)) then Ok
    else Incompatible
  }

  method EvaluateBoundary(rs: seq<Requirements>, ps: seq<Path>) returns (result: MemoryResult, out: seq<Decision>)
    requires |rs| == |ps|
    ensures result == BoundaryResult(rs, ps)
    ensures result == Ok || result == Incompatible ==> |out| == |rs| && forall i :: 0 <= i < |rs| ==>
      out[i] == DecisionAt(rs, ps, i)
    ensures result != Ok && result != Incompatible ==> out == []
  {
    hide Validate, ValidatePath, Union, Without;
    out := [];
    if rs == [] || |rs| > MAX_ENDPOINTS {
      return Invalid, out;
    }
    var operations: bv32 := 0;
    var i := 0;
    while i < |rs|
      invariant i <= |rs| && operations == Operations(ps[..i])
        && FirstEndpointError(rs, ps, 0) == FirstEndpointError(rs, ps, i)
    {
      result := Validate(rs[i]);
      if result != Ok {
        return;
      }
      result := ValidatePath(ps[i]);
      if result != Ok {
        return;
      }
      if ps[i].resource != ps[0].resource {
        return Invalid, out;
      }
      assert ps[..i + 1][..i] == ps[..i];
      operations := Union(operations, ps[i].operations);
      i := i + 1;
    }
    assert ps[..i] == ps;
    JoinedPathsValid(rs, ps);
    result, out := EvaluateEach(rs, ps, operations);
  }

  /** Second pass: nothing can be invalid any more. */
  method EvaluateEach(rs: seq<Requirements>, ps: seq<Path>, operations: bv32)
      returns (result: MemoryResult, decisions: seq<Decision>)
    requires |rs| == |ps| && operations == Operations(ps)
    requires forall i :: 0 <= i < |rs| ==> Validate(rs[i]) == Ok && ValidatePath(ps[i].(operations := operations)) == Ok
    ensures result == if forall i :: 0 <= i < |rs| ==> Accepts(DecisionAt(rs, ps, i)) then Ok else Incompatible
    ensures |decisions| == |rs| && forall i :: 0 <= i < |rs| ==> decisions[i] == DecisionAt(rs, ps, i)
  {
    hide Validate, ValidatePath, Operations, Decide, Accepts;
    result, decisions := Ok, [];
    var i := 0;
    while i < |rs|
      invariant i <= |rs| && |decisions| == i
      invariant forall k :: 0 <= k < i ==> decisions[k] == DecisionAt(rs, ps, k)
      invariant result == Ok || result == Incompatible
      invariant result == Ok <==> forall k :: 0 <= k < i ==> Accepts(DecisionAt(rs, ps, k))
    {
      var path := ps[i].(operations := operations);
      var (verdict, decision) := Evaluate(rs[i], path);
      assert verdict == Ok <==> Accepts(DecisionAt(rs, ps, i));
      decisions := decisions + [decision];
      if verdict != Ok {
        result := Incompatible;
      }
      i := i + 1;
    }
  }

  lemma {:induction false} OperationsWithin(ps: seq<Path>, mask: bv32)
    ensures Within(Operations(ps), mask) <==> forall i :: 0 <= i < |ps| ==> Within(ps[i].operations, mask)
  {
    hide Union, Within;
    if ps == [] {
      NothingWithin(mask);
    } else {
      OperationsWithin(ps[..|ps| - 1], mask);
      WithinUnion(Operations(ps[..|ps| - 1]), ps[|ps| - 1].operations, mask);
    }
  }

  lemma {:induction false} OperationsBits(ps: seq<Path>, bit: bv32)
    requires SingleBit(bit)
    ensures Has(Operations(ps), bit) <==> exists i :: 0 <= i < |ps| && Has(ps[i].operations, bit)
  {
    hide Union, Has, SingleBit;
    if ps == [] {
      NoBit(bit);
    } else {
      var front, last := ps[..|ps| - 1], ps[|ps| - 1];
      OperationsBits(front, bit);
      BitByBit(Operations(front), last.operations, bit);
      if i :| 0 <= i < |front| && Has(front[i].operations, bit) {
        assert Has(ps[i].operations, bit);
      }
      if i :| 0 <= i < |ps| && Has(ps[i].operations, bit) {
        assert i == |front| || Has(front[i].operations, bit);
      }
    }
  }

  lemma NoBit(bit: bv32)
    ensures !Has(0, bit)
  {
  }

  /** What a boundary reports of each endpoint: its own path, and the operations of anybody it does not permit. */
  lemma BoundaryBits(rs: seq<Requirements>, ps: seq<Path>, i: nat, bit: bv32)
    requires |rs| == |ps| && i < |rs| && SingleBit(bit)
    ensures var d := DecisionAt(rs, ps, i);
      && (Has(d.missing, bit) <==> Has(rs[i].required, bit) && !Has(ps[i].supported, bit))
      && (Has(d.unmet, bit) <==> Has(rs[i].preferred, bit) && !Has(ps[i].supported, bit))
      && (Has(d.rejected, bit) <==> Has(ps[i].resource, bit) && !Has(rs[i].resources, bit))
      && (Has(d.forbidden, bit) <==>
          !Has(rs[i].operations, bit) && exists j :: 0 <= j < |ps| && Has(ps[j].operations, bit))
  {
    hide Has, SingleBit, Operations, Decide;
    DecisionBits(rs[i], ps[i].(operations := Operations(ps)), bit);
    OperationsBits(ps, bit);
  }

  /** Joining the operations of valid paths leaves them valid. */
  lemma JoinedPathsValid(rs: seq<Requirements>, ps: seq<Path>)
    requires |rs| == |ps| && rs != [] && FirstEndpointError(rs, ps, 0) == Ok
    ensures forall i :: 0 <= i < |rs| ==>
      Validate(rs[i]) == Ok && ValidatePath(ps[i].(operations := Operations(ps))) == Ok
  {
    hide Validate, Within, SingleBit;
    assert forall i :: 0 <= i < |ps| ==> EndpointError(rs[i], ps[i], ps[0].resource) == Ok;
    OperationsWithin(ps, OPERATIONS_ALL);
  }

  // ---- what the verdict means -----------------------------------------------------------------------

  /** Valid, complete and of one resource type. */
  ghost predicate WellFormed(rs: seq<Requirements>, ps: seq<Path>) {
    && |rs| == |ps| && 0 < |rs| <= MAX_ENDPOINTS
    && (forall i :: 0 <= i < |rs| ==> Validate(rs[i]) == Ok && ValidatePath(ps[i]) == Ok)
    && (forall i, j :: 0 <= i < |rs| && 0 <= j < |rs| ==> ps[i].resource == ps[j].resource)
  }

  /** Every endpoint's own path meets its demands, and everybody permits everybody's operations. */
  ghost predicate Compatible(rs: seq<Requirements>, ps: seq<Path>)
    requires |rs| == |ps|
  {
    && (forall i :: 0 <= i < |rs| ==>
      Within(rs[i].required, ps[i].supported) && Within(ps[i].resource, rs[i].resources))
    && (forall i, j :: 0 <= i < |rs| && 0 <= j < |rs| ==> Within(ps[j].operations, rs[i].operations))
  }

  /** The verdict, pair by pair and without folds: an operation of any endpoint needs the consent of every endpoint. */
  lemma BoundaryMeaning(rs: seq<Requirements>, ps: seq<Path>)
    requires |rs| == |ps|
    ensures BoundaryResult(rs, ps) == Ok <==> WellFormed(rs, ps) && Compatible(rs, ps)
  {
    hide Validate, ValidatePath, Within, FirstEndpointError, Operations;
    if 0 < |rs| <= MAX_ENDPOINTS {
      FirstErrorMeaning(rs, ps);
      forall i | 0 <= i < |rs| ensures Accepts(DecisionAt(rs, ps, i)) <==>
        && Within(rs[i].required, ps[i].supported) && Within(ps[i].resource, rs[i].resources)
        && forall j :: 0 <= j < |ps| ==> Within(ps[j].operations, rs[i].operations)
      {
        AcceptsMeaning(rs, ps, i);
      }
    }
  }

  lemma FirstErrorMeaning(rs: seq<Requirements>, ps: seq<Path>)
    requires |rs| == |ps| && 0 < |rs| <= MAX_ENDPOINTS
    ensures FirstEndpointError(rs, ps, 0) == Ok <==> WellFormed(rs, ps)
  {
    hide Validate, ValidatePath, FirstEndpointError;
    if WellFormed(rs, ps) {
      assert forall i :: 0 <= i < |rs| ==> EndpointError(rs[i], ps[i], ps[0].resource) == Ok;
    }
    if FirstEndpointError(rs, ps, 0) == Ok {
      assert forall i :: 0 <= i < |rs| ==> EndpointError(rs[i], ps[i], ps[0].resource) == Ok;
    }
  }

  lemma AcceptsMeaning(rs: seq<Requirements>, ps: seq<Path>, i: nat)
    requires |rs| == |ps| && i < |rs|
    ensures Accepts(DecisionAt(rs, ps, i)) <==>
      && Within(rs[i].required, ps[i].supported) && Within(ps[i].resource, rs[i].resources)
      && forall j :: 0 <= j < |ps| ==> Within(ps[j].operations, rs[i].operations)
  {
    hide Without, Operations;
    OperationsWithin(ps, rs[i].operations);
  }

  // ---- the algebra of boundaries --------------------------------------------------------------------

  /** An endpoint: its demands and its path. */
  datatype Endpoint = Endpoint(requirements: Requirements, path: Path)

  function Demands(es: seq<Endpoint>): (rs: seq<Requirements>)
    ensures |rs| == |es| && forall i :: 0 <= i < |es| ==> rs[i] == es[i].requirements
  {
    seq(|es|, i requires 0 <= i < |es| => es[i].requirements)
  }

  function Paths(es: seq<Endpoint>): (ps: seq<Path>)
    ensures |ps| == |es| && forall i :: 0 <= i < |es| ==> ps[i] == es[i].path
  {
    seq(|es|, i requires 0 <= i < |es| => es[i].path)
  }

  ghost predicate Agreed(es: seq<Endpoint>) {
    BoundaryResult(Demands(es), Paths(es)) == Ok
  }

  /** The verdict in terms of which endpoints take part, not of where they stand. */
  ghost predicate AgreedAmong(members: iset<Endpoint>) {
    && (forall e :: e in members ==> Validate(e.requirements) == Ok && ValidatePath(e.path) == Ok)
    && (forall e :: e in members ==>
      Within(e.requirements.required, e.path.supported) && Within(e.path.resource, e.requirements.resources))
    && (forall e, f :: e in members && f in members ==> e.path.resource == f.path.resource)
    && (forall e, f :: e in members && f in members ==> Within(f.path.operations, e.requirements.operations))
  }

  ghost function Members(es: seq<Endpoint>): iset<Endpoint> {
    iset e | e in es
  }

  lemma AgreedByMembers(es: seq<Endpoint>)
    ensures Agreed(es) <==> 0 < |es| <= MAX_ENDPOINTS && AgreedAmong(Members(es))
  {
    hide Validate, ValidatePath, Within, BoundaryResult;
    var rs, ps := Demands(es), Paths(es);
    BoundaryMeaning(rs, ps);
    if Agreed(es) {
      MembersFromIndices(es);
    }
    if 0 < |es| <= MAX_ENDPOINTS && AgreedAmong(Members(es)) {
      assert forall i :: 0 <= i < |es| ==> es[i] in Members(es);
      assert WellFormed(rs, ps);
      assert Compatible(rs, ps);
    }
  }

  lemma MembersFromIndices(es: seq<Endpoint>)
    requires WellFormed(Demands(es), Paths(es)) && Compatible(Demands(es), Paths(es))
    ensures AgreedAmong(Members(es))
  {
    hide Validate, ValidatePath, Within;
    forall e | e in Members(es)
      ensures Validate(e.requirements) == Ok && ValidatePath(e.path) == Ok
      ensures Within(e.requirements.required, e.path.supported) && Within(e.path.resource, e.requirements.resources)
    {
      var i :| 0 <= i < |es| && es[i] == e;
      assert Demands(es)[i] == e.requirements && Paths(es)[i] == e.path;
    }
    forall e, f | e in Members(es) && f in Members(es)
      ensures e.path.resource == f.path.resource && Within(f.path.operations, e.requirements.operations)
    {
      var i :| 0 <= i < |es| && es[i] == e;
      var j :| 0 <= j < |es| && es[j] == f;
      assert Demands(es)[i] == e.requirements && Paths(es)[i] == e.path && Paths(es)[j] == f.path;
    }
  }

  /** The order in which endpoints are listed never matters. */
  lemma PermutationInvariant(es: seq<Endpoint>, fs: seq<Endpoint>)
    requires multiset(es) == multiset(fs)
    ensures Agreed(es) == Agreed(fs)
  {
    hide AgreedAmong, Agreed;
    AgreedByMembers(es);
    AgreedByMembers(fs);
    assert |es| == |multiset(es)| == |fs|;
    forall e ensures e in es <==> e in fs {
      assert e in es <==> e in multiset(es);
      assert e in fs <==> e in multiset(fs);
    }
    assert Members(es) == Members(fs);
  }

  /** A further endpoint, wherever it is inserted, can only lose an agreement. */
  lemma AddingOnlyLoses(es: seq<Endpoint>, i: nat, e: Endpoint)
    requires i <= |es| && es != [] && Agreed(es[..i] + [e] + es[i..])
    ensures Agreed(es)
  {
    hide Agreed, Validate, ValidatePath, Within;
    var fs := es[..i] + [e] + es[i..];
    AgreedByMembers(es);
    AgreedByMembers(fs);
    assert es == es[..i] + es[i..];
    assert forall x :: x in es ==> x in fs;
  }

  /** The combined requirements, bit by bit: a demand of anyone, a permission of everyone. */
  lemma CombinedMeaning(rs: seq<Requirements>, mask: bv32)
    ensures Within(mask, Combined(rs).resources) <==> Within(mask, RESOURCE_ALL) && forall i :: 0 <= i < |rs| ==>
      Within(mask, rs[i].resources)
    ensures Within(mask, Combined(rs).operations) <==> Within(mask, OPERATIONS_ALL) && forall i :: 0 <= i < |rs| ==>
      Within(mask, rs[i].operations)
    ensures Within(Combined(rs).required, mask) <==> forall i :: 0 <= i < |rs| ==> Within(rs[i].required, mask)
  {
    hide Within, Combined;
    CombinedResources(rs, mask);
    CombinedOperations(rs, mask);
    CombinedRequired(rs, mask);
  }

  /** The same of every single bit, preferences included. */
  lemma {:induction false} CombinedBits(rs: seq<Requirements>, bit: bv32)
    requires SingleBit(bit)
    ensures Has(Combined(rs).required, bit) <==> exists i :: 0 <= i < |rs| && Has(rs[i].required, bit)
    ensures Has(Combined(rs).preferred, bit) <==> exists i :: 0 <= i < |rs| && Has(rs[i].preferred, bit)
  {
    hide Union, Meet, Has, SingleBit;
    if rs == [] {
      NoBit(bit);
    } else {
      var front, last := rs[..|rs| - 1], rs[|rs| - 1];
      CombinedBits(front, bit);
      BitByBit(Combined(front).required, last.required, bit);
      BitByBit(Combined(front).preferred, last.preferred, bit);
      assert forall i :: 0 <= i < |front| ==> front[i] == rs[i];
      if i :| 0 <= i < |front| && Has(front[i].required, bit) {
        assert Has(rs[i].required, bit);
      }
      if i :| 0 <= i < |front| && Has(front[i].preferred, bit) {
        assert Has(rs[i].preferred, bit);
      }
      if i :| 0 <= i < |rs| && Has(rs[i].required, bit) {
        assert i == |front| || Has(front[i].required, bit);
      }
      if i :| 0 <= i < |rs| && Has(rs[i].preferred, bit) {
        assert i == |front| || Has(front[i].preferred, bit);
      }
    }
  }

  lemma {:induction false} CombinedResources(rs: seq<Requirements>, mask: bv32)
    ensures Within(mask, Combined(rs).resources) <==> Within(mask, RESOURCE_ALL) && forall i :: 0 <= i < |rs| ==>
      Within(mask, rs[i].resources)
  {
    hide Within, Union, Meet;
    if rs != [] {
      var front, last := rs[..|rs| - 1], rs[|rs| - 1];
      CombinedResources(front, mask);
      WithinMeet(mask, Combined(front).resources, last.resources);
    }
  }

  lemma {:induction false} CombinedOperations(rs: seq<Requirements>, mask: bv32)
    ensures Within(mask, Combined(rs).operations) <==> Within(mask, OPERATIONS_ALL) && forall i :: 0 <= i < |rs| ==>
      Within(mask, rs[i].operations)
  {
    hide Within, Union, Meet;
    if rs != [] {
      var front, last := rs[..|rs| - 1], rs[|rs| - 1];
      CombinedOperations(front, mask);
      WithinMeet(mask, Combined(front).operations, last.operations);
    }
  }

  lemma {:induction false} CombinedRequired(rs: seq<Requirements>, mask: bv32)
    ensures Within(Combined(rs).required, mask) <==> forall i :: 0 <= i < |rs| ==> Within(rs[i].required, mask)
  {
    hide Within, Union, Meet;
    if rs == [] {
      NothingWithin(mask);
    } else {
      var front, last := rs[..|rs| - 1], rs[|rs| - 1];
      CombinedRequired(front, mask);
      WithinUnion(Combined(front).required, last.required, mask);
    }
  }

  /** An agreed boundary always has combined requirements. */
  lemma AgreedCombines(es: seq<Endpoint>)
    requires Agreed(es)
    ensures CombineResult(Demands(es)) == Ok
  {
    hide Validate, Within, BoundaryResult, Combined, FirstError, ValidatePath;
    var rs, ps := Demands(es), Paths(es);
    BoundaryMeaning(rs, ps);
    var bit := ps[0].resource;
    PathResource(ps[0]);
    forall i | 0 <= i < |rs| ensures Within(bit, rs[i].resources) {
      assert ps[i].resource == bit;
    }
    CombinedMeaning(rs, bit);
    WithinNothing(bit);
  }

  lemma PathResource(p: Path)
    requires ValidatePath(p) == Ok
    ensures p.resource != 0 && Within(p.resource, RESOURCE_ALL) && Within(p.supported, USAGE_ALL)
      && Within(p.operations, OPERATIONS_ALL)
  {
    hide Within;
  }

  /** Usages every endpoint's path supports. */
  function Supported(ps: seq<Path>): bv32 {
    if ps == [] then USAGE_ALL else Meet(Supported(ps[..|ps| - 1]), ps[|ps| - 1].supported)
  }

  lemma {:induction false} SupportedMeaning(ps: seq<Path>, mask: bv32)
    ensures Within(mask, Supported(ps)) <==> Within(mask, USAGE_ALL) && forall i :: 0 <= i < |ps| ==>
      Within(mask, ps[i].supported)
  {
    hide Within, Meet;
    if ps != [] {
      SupportedMeaning(ps[..|ps| - 1], mask);
      WithinMeet(mask, Supported(ps[..|ps| - 1]), ps[|ps| - 1].supported);
    }
  }

  /** One path standing for the whole boundary: usages met everywhere, operations of anyone. */
  function JointPath(ps: seq<Path>): Path
    requires ps != []
  {
    Path(VERSION, ps[0].resource, Supported(ps), Operations(ps), (0, 0, 0, 0))
  }

  ghost predicate CombinedAccepts(es: seq<Endpoint>)
    requires es != []
  {
    CombineResult(Demands(es)) == Ok && Evaluate(Combined(Demands(es)), JointPath(Paths(es))).0 == Ok
  }

  /** Every path supports what anyone demands. */
  ghost predicate CrossSupported(es: seq<Endpoint>) {
    forall i, j :: 0 <= i < |es| && 0 <= j < |es| ==> Within(es[i].requirements.required, es[j].path.supported)
  }

  /**
   * Judging the combined requirements against the joint path is sound for the boundary, and exact up to one thing:
   * the boundary lets each endpoint meet its demands with its own path alone.
   */
  lemma CombinedVerdict(es: seq<Endpoint>)
    requires WellFormed(Demands(es), Paths(es))
    ensures CombinedAccepts(es) <==> Agreed(es) && CrossSupported(es)
  {
    hide Validate, ValidatePath, Within, BoundaryResult, Combined, Operations, Supported, FirstError;
    var rs, ps := Demands(es), Paths(es);
    BoundaryMeaning(rs, ps);
    JointPathValid(rs, ps);
    if Combined(rs).resources != 0 {
      CombinedValid(rs);
      JointDecision(rs, ps);
      CrossMeaning(es);
    } else {
      PathResource(ps[0]);
      CombinedMeaning(rs, ps[0].resource);
      WithinNothing(ps[0].resource);
    }
    if Agreed(es) {
      AgreedCombines(es);
    }
  }

  lemma CrossMeaning(es: seq<Endpoint>)
    requires WellFormed(Demands(es), Paths(es))
    ensures CrossSupported(es) <==> forall i :: 0 <= i < |es| ==>
      Within(es[i].requirements.required, Supported(Paths(es)))
  {
    hide ValidatePath, Within, Supported;
    var rs, ps := Demands(es), Paths(es);
    forall i | 0 <= i < |es|
      ensures Within(es[i].requirements.required, Supported(ps)) <==> forall j :: 0 <= j < |es| ==>
        Within(es[i].requirements.required, es[j].path.supported)
    {
      DemandsKnown(rs[i]);
      SupportedMeaning(ps, rs[i].required);
    }
  }

  lemma DemandsKnown(r: Requirements)
    requires Validate(r) == Ok
    ensures Within(r.required, USAGE_ALL) && Within(r.preferred, USAGE_ALL)
  {
    hide Within, Union;
    WithinUnion(r.required, r.preferred, USAGE_ALL);
  }

  lemma JointDecision(rs: seq<Requirements>, ps: seq<Path>)
    requires WellFormed(rs, ps)
    ensures Accepts(Decide(Combined(rs), JointPath(ps))) <==>
      && (forall i :: 0 <= i < |rs| ==> Within(rs[i].required, Supported(ps)))
      && (forall i :: 0 <= i < |rs| ==> Within(ps[i].resource, rs[i].resources))
      && (forall i, j :: 0 <= i < |rs| && 0 <= j < |rs| ==> Within(ps[j].operations, rs[i].operations))
  {
    hide Validate, ValidatePath, Without, Combined, Operations, Supported;
    PathResource(ps[0]);
    CombinedMeaning(rs, Supported(ps));
    CombinedMeaning(rs, ps[0].resource);
    CombinedMeaning(rs, Operations(ps));
    forall i | 0 <= i < |rs| ensures Within(ps[i].operations, OPERATIONS_ALL) {
      PathResource(ps[i]);
    }
    OperationsWithin(ps, OPERATIONS_ALL);
    forall i | 0 <= i < |rs| ensures Within(Operations(ps), rs[i].operations) <==> forall j :: 0 <= j < |rs| ==>
      Within(ps[j].operations, rs[i].operations) {
      OperationsWithin(ps, rs[i].operations);
    }
  }

  lemma JointPathValid(rs: seq<Requirements>, ps: seq<Path>)
    requires WellFormed(rs, ps)
    ensures ValidatePath(JointPath(ps)) == Ok
  {
    hide Within, Operations, Supported, Validate, SingleBit;
    forall i | 0 <= i < |ps| ensures Within(ps[i].operations, OPERATIONS_ALL) {
      PathResource(ps[i]);
    }
    OperationsWithin(ps, OPERATIONS_ALL);
    SupportedKnown(ps);
    assert ValidatePath(ps[0]) == Ok;
  }

  lemma SupportedKnown(ps: seq<Path>)
    ensures Within(Supported(ps), USAGE_ALL)
  {
    hide Within, Supported;
    Reflexive(Supported(ps));
    SupportedMeaning(ps, Supported(ps));
  }

  lemma CombinedValid(rs: seq<Requirements>)
    requires AllValid(rs) && Combined(rs).resources != 0
    ensures Validate(Combined(rs)) == Ok
  {
    hide Within, Union;
    forall i | 0 <= i < |rs| ensures Within(rs[i].required, USAGE_ALL) && Within(rs[i].preferred, USAGE_ALL) {
      DemandsKnown(rs[i]);
    }
    CombinedMeaning(rs, USAGE_ALL);
    PreferredWithin(rs, USAGE_ALL);
    Reflexive(Combined(rs).resources);
    Reflexive(Combined(rs).operations);
    CombinedMeaning(rs, Combined(rs).resources);
    CombinedMeaning(rs, Combined(rs).operations);
    WithinUnion(Combined(rs).required, Combined(rs).preferred, USAGE_ALL);
  }

  lemma {:induction false} PreferredWithin(rs: seq<Requirements>, mask: bv32)
    ensures Within(Combined(rs).preferred, mask) <==> forall i :: 0 <= i < |rs| ==> Within(rs[i].preferred, mask)
    ensures Combined(rs).version == VERSION && Combined(rs).reserved == (0, 0, 0)
  {
    hide Within, Union, Meet;
    if rs == [] {
      NothingWithin(mask);
    } else {
      PreferredWithin(rs[..|rs| - 1], mask);
      WithinUnion(Combined(rs[..|rs| - 1]).preferred, rs[|rs| - 1].preferred, mask);
    }
  }

  const CPU_READ: bv32 := 0x01
  const DMABUF: bv32 := 0x04

  /** One end reads with the CPU and its path supports it; the other neither asks nor supports. */
  const READER := Endpoint(
    Requirements(VERSION, CPU_READ, 0, DMABUF, 0, (0, 0, 0)), Path(VERSION, DMABUF, CPU_READ, 0, (0, 0, 0, 0)))
  const WRITER := Endpoint(
    Requirements(VERSION, 0, 0, DMABUF, 0, (0, 0, 0)), Path(VERSION, DMABUF, 0, 0, (0, 0, 0, 0)))

  lemma BothValid()
    ensures Validate(READER.requirements) == Ok && ValidatePath(READER.path) == Ok
    ensures Validate(WRITER.requirements) == Ok && ValidatePath(WRITER.path) == Ok
  {
  }

  lemma BothFit()
    ensures Within(CPU_READ, CPU_READ) && Within(0, 0) && Within(DMABUF, DMABUF) && !Within(CPU_READ, 0)
  {
  }

  /** The other direction fails: what one end demands of its own path the other's need not support. */
  lemma CombinedIsStricter() returns (es: seq<Endpoint>)
    ensures Agreed(es) && es != [] && !CombinedAccepts(es)
  {
    hide BoundaryResult, CombineResult, CombinedAccepts, Validate, ValidatePath, Within;
    es := [READER, WRITER];
    BothValid();
    BothFit();
    BoundaryMeaning(Demands(es), Paths(es));
    CombinedVerdict(es);
    assert !Within(es[0].requirements.required, es[1].path.supported);
  }
}
