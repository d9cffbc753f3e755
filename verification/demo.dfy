/** The demonstration program and the removal scenario, as end-to-end scenarios proved of the model. */
module Demo {
  import opened Wrappers
  import opened Units
  import opened Teams

  /**
   `main`: two warriors are allocated, added to the team "Fellowship" and printed;
   the team prints them in insertion order and the heap is left as it was.
   */
  method Fellowship() returns (team: Team, heap: Heap, shown: seq<Unit>)
    ensures team.teamName == "Fellowship"
    ensures shown == [NewWarrior("Aragorn", 100, 0, 0), NewWarrior("Boromir", 90, 1, 1)]
    ensures heap == map[Ref(0) := shown[0], Ref(1) := shown[1]]
  {
    var w1, w2 := Ref(0), Ref(1);
    heap := map[w1 := NewWarrior("Aragorn", 100, 0, 0), w2 := NewWarrior("Boromir", 90, 1, 1)];
    team := NewTeam("Fellowship");
    team := AddMember(team, w1);
    team := AddMember(team, w2);
    shown := Print(team, heap);
  }

  /**
   Three members named A, B and C: removing "B" leaves A then C, after which a
   search for "B" finds nothing and a search for "C" finds the third unit.
   */
  method RemoveMiddle() returns (order: seq<Ref>, foundB: Option<Ref>, foundC: Option<Ref>)
    ensures order == [Ref(0), Ref(2)]
    ensures foundB == None
    ensures foundC == Some(Ref(2))
  {
    var a, b, c := Ref(0), Ref(1), Ref(2);
    var heap := map[a := NewWarrior("A", 1, 0, 0), b := NewWarrior("B", 1, 0, 0), c := NewWarrior("C", 1, 0, 0)];
    var team := NewTeam("T");
    team := AddMember(team, a);
    team := AddMember(team, b);
    team := AddMember(team, c);
    assert Members(team) == [a, b, c];
    assert FirstNamed([a, b, c], heap, "B") == 1 by {
      assert heap[a].name != "B";
    }
    team := RemoveMember(team, heap, "B");
    order := Members(team);
    assert order == [a, c];
    foundB := FindMember(team, heap, "B");
    foundC := FindMember(team, heap, "C");
  }
}
