/**
 `Team`: a named, ordered collection of unit pointers kept in an `Array<Unit*>`.
 A pointer is a `Ref` into the caller's `Heap`; the team never creates,
 changes or destroys the units it points to.
 */
module Teams {
  import opened Wrappers
  import opened Units
  import Arrays

  /** A `Unit*`: the address of a unit the caller owns. */
  datatype Ref = Ref(addr: nat)

  /** The units alive in the caller's memory, by address. */
  type Heap = map<Ref, Unit>

  datatype Team = Team(teamName: string, members: Arrays.Array<Ref>) {
    /** The member array keeps its invariant and its capacity stays positive, so `add` is always defined. */
    predicate Valid() {
      members.Valid() && members.capacity >= 1
    }
  }

  /** The members in insertion order (with removed ones taken out). */
  function Members(t: Team): seq<Ref>
    requires t.Valid()
  {
    t.members.Contents()
  }

  /** Every pointer can be dereferenced. */
  predicate Live(refs: seq<Ref>, heap: Heap) {
    forall i :: 0 <= i < |refs| ==> refs[i] in heap
  }

  /** The constructor: a team with the given name and no members. */
  function NewTeam(teamName: string): (t: Team)
    ensures t.Valid()
    ensures t.teamName == teamName
    ensures Members(t) == []
  {
    Team(teamName, Arrays.Create(Arrays.DefaultCapacity))
  }

  /**
   The index of the first pointer whose unit is called `name`, or `|refs|` when
   there is none: the reference definition of the name search.
   */
  function FirstNamed(refs: seq<Ref>, heap: Heap, name: string): (k: nat)
    requires Live(refs, heap)
    ensures k <= |refs|
    ensures forall j :: 0 <= j < k ==> heap[refs[j]].name != name
    ensures k < |refs| ==> heap[refs[k]].name == name
  {
    if |refs| == 0 then 0
    else if heap[refs[0]].name == name then 0
    else 1 + FirstNamed(refs[1..], heap, name)
  }

  /** The members left when the first one called `name` is taken out, if any is. */
  function WithoutFirst(refs: seq<Ref>, heap: Heap, name: string): (r: seq<Ref>)
    requires Live(refs, heap)
    ensures Live(r, heap)
  {
    var k := FirstNamed(refs, heap, name);
    if k < |refs| then refs[..k] + refs[k + 1..] else refs
  }

  /** How many members are called `name`. */
  function CountNamed(refs: seq<Ref>, heap: Heap, name: string): nat
    requires Live(refs, heap)
  {
    if |refs| == 0 then 0
    else (if heap[refs[0]].name == name then 1 else 0) + CountNamed(refs[1..], heap, name)
  }

  /** `addMember`: appends the pointer without looking at it; duplicates are accepted. */
  method AddMember(t: Team, unit: Ref) returns (t': Team)
    requires t.Valid()
    ensures t'.Valid()
    ensures t'.teamName == t.teamName
    ensures Members(t') == Members(t) + [unit]
  {
    var members := Arrays.Add(t.members, unit);
    t' := t.(members := members);
  }

  /**
   `findMember`: a linear search in insertion order that returns the first member
   called `name`, and `nullptr` exactly when no member is.
   */
  method FindMember(t: Team, heap: Heap, name: string) returns (r: Option<Ref>)
    requires t.Valid() && Live(Members(t), heap)
    ensures r.None? <==> forall i :: 0 <= i < |Members(t)| ==> heap[Members(t)[i]].name != name
    ensures r.Some? ==> r.value in Members(t) && heap[r.value].name == name
    ensures var k := FirstNamed(Members(t), heap, name);
      r == if k < |Members(t)| then Some(Members(t)[k]) else None
  {
    var s := Members(t);
    var i := 0;
    while i < Arrays.Size(t.members)
      invariant i <= |s|
      invariant forall j :: 0 <= j < i ==> heap[s[j]].name != name
    {
      var m := Arrays.At(t.members, i).value;
      if heap[m].name == name {
        return Some(m);
      }
      i := i + 1;
    }
    return None;
  }

  /**
   `removeMember`: removes the first member called `name`, keeping the others in
   order, and leaves the team exactly as it was when no member is.
   */
  method RemoveMember(t: Team, heap: Heap, name: string) returns (t': Team)
    requires t.Valid() && Live(Members(t), heap)
    ensures t'.Valid()
    ensures t'.teamName == t.teamName
    ensures Members(t') == WithoutFirst(Members(t), heap, name)
    ensures (forall i :: 0 <= i < |Members(t)| ==> heap[Members(t)[i]].name != name) ==> t' == t
  {
    var s := Members(t);
    var i := 0;
    while i < Arrays.Size(t.members)
      invariant i <= |s|
      invariant forall j :: 0 <= j < i ==> heap[s[j]].name != name
    {
      if heap[Arrays.At(t.members, i).value].name == name {
        var removed := Arrays.Remove(t.members, i);
        return t.(members := removed.value);
      }
      i := i + 1;
    }
    return t;
  }

  /**
   `print`: the units whose `print` runs after the header line, one per member,
   in member order; the units themselves are read, never changed.
   */
  method Print(t: Team, heap: Heap) returns (shown: seq<Unit>)
    requires t.Valid() && Live(Members(t), heap)
    ensures |shown| == |Members(t)|
    ensures forall i :: 0 <= i < |shown| ==> shown[i] == heap[Members(t)[i]]
  {
    var refs := Arrays.Print(t.members);
    shown := [];
    var i := 0;
    while i < |refs|
      invariant i <= |refs|
      invariant |shown| == i
      invariant forall j :: 0 <= j < i ==> shown[j] == heap[refs[j]]
    {
      shown := shown + [heap[refs[i]]];
      i := i + 1;
    }
  }

  /** Taking out the first match removes exactly one member called `name`, when there is one. */
  lemma {:induction false} WithoutFirstDropsOneMatch(refs: seq<Ref>, heap: Heap, name: string)
    requires Live(refs, heap)
    ensures CountNamed(refs, heap, name) == 0 ==> CountNamed(WithoutFirst(refs, heap, name), heap, name) == 0
    ensures CountNamed(refs, heap, name) > 0 ==>
      CountNamed(WithoutFirst(refs, heap, name), heap, name) == CountNamed(refs, heap, name) - 1
  {
    if |refs| == 0 {
    } else if heap[refs[0]].name == name {
      assert WithoutFirst(refs, heap, name) == refs[1..];
    } else {
      var tail := refs[1..];
      WithoutFirstDropsOneMatch(tail, heap, name);
      var k := FirstNamed(tail, heap, name);
      if k < |tail| {
        assert FirstNamed(refs, heap, name) == k + 1;
        assert refs == [refs[0]] + tail;
        ConsDropOne(refs[0], tail, k);
        assert WithoutFirst(refs, heap, name) == [refs[0]] + WithoutFirst(tail, heap, name);
      } else {
        assert WithoutFirst(refs, heap, name) == refs;
      }
      CountNamedCons(refs[0], WithoutFirst(tail, heap, name), heap, name);
    }
  }

  /** `CountNamed` of a sequence with a given first element. */
  lemma CountNamedCons(r: Ref, refs: seq<Ref>, heap: Heap, name: string)
    requires r in heap && Live(refs, heap)
    ensures Live([r] + refs, heap)
    ensures CountNamed([r] + refs, heap, name)
      == (if heap[r].name == name then 1 else 0) + CountNamed(refs, heap, name)
  {
    assert ([r] + refs)[1..] == refs;
  }

  /** No member is called `name` exactly when the search runs off the end. */
  lemma {:induction false} CountZeroIffNotFound(refs: seq<Ref>, heap: Heap, name: string)
    requires Live(refs, heap)
    ensures CountNamed(refs, heap, name) == 0 <==> FirstNamed(refs, heap, name) == |refs|
  {
    if |refs| > 0 {
      CountZeroIffNotFound(refs[1..], heap, name);
    }
  }

  /** Removing the only member called `name` leaves a team in which `findMember(name)` finds nothing. */
  lemma RemovedUniqueNameIsGone(refs: seq<Ref>, heap: Heap, name: string)
    requires Live(refs, heap)
    requires CountNamed(refs, heap, name) <= 1
    ensures var rest := WithoutFirst(refs, heap, name);
      FirstNamed(rest, heap, name) == |rest|
  {
    WithoutFirstDropsOneMatch(refs, heap, name);
    CountZeroIffNotFound(WithoutFirst(refs, heap, name), heap, name);
  }

  /** Removal keeps every member that is not the removed one, in the same relative order. */
  lemma WithoutFirstKeepsOthers(refs: seq<Ref>, heap: Heap, name: string)
    requires Live(refs, heap)
    ensures var k := FirstNamed(refs, heap, name);
      var rest := WithoutFirst(refs, heap, name);
      && |rest| == (if k < |refs| then |refs| - 1 else |refs|)
      && (forall j :: 0 <= j < k && j < |rest| ==> rest[j] == refs[j])
      && (forall j :: k <= j < |rest| ==> rest[j] == refs[j + 1])
  {
  }

  /** Removal takes out exactly the first member called `name` and no other pointer. */
  lemma WithoutFirstIsPermutationMinusOne(refs: seq<Ref>, heap: Heap, name: string)
    requires Live(refs, heap)
    ensures var k := FirstNamed(refs, heap, name);
      var rest := WithoutFirst(refs, heap, name);
      multiset(rest) + (if k < |refs| then multiset{refs[k]} else multiset{}) == multiset(refs)
  {
    var k := FirstNamed(refs, heap, name);
    if k < |refs| {
      DropOne(refs, k);
    }
  }

  /** Dropping the element at `k` loses exactly that element from the multiset. */
  lemma DropOne<X>(s: seq<X>, k: nat)
    requires k < |s|
    ensures multiset(s[..k] + s[k + 1..]) + multiset{s[k]} == multiset(s)
  {
    assert s == s[..k] + [s[k]] + s[k + 1..];
  }

  /** Dropping index `k` of a tail is dropping index `k + 1` of the whole sequence. */
  lemma ConsDropOne<X>(x: X, t: seq<X>, k: nat)
    requires k < |t|
    ensures [x] + (t[..k] + t[k + 1..]) == ([x] + t)[..k + 1] + ([x] + t)[k + 2..]
  {
  }
}
