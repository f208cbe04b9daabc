/**
 * The attribute terminals of a coding region grouped by name: one group per
 * name, the groups in ascending name order, each group's positions ascending
 * (what sorting the (position, name) pairs by name and grouping them yields).
 */
module Terminals {
  import opened Symbols
  import opened Strings

  datatype Group = Group(name: string, positions: seq<nat>)

  /** The ascending positions below `upto` that hold the attribute terminal `n`. */
  function AttrPositions(s: seq<Allele>, n: string, upto: nat): seq<nat>
    requires upto <= |s|
  {
    if upto == 0 then []
    else AttrPositions(s, n, upto - 1) + (if s[upto - 1] == Attr(n) then [upto - 1] else [])
  }

  lemma {:induction false} AttrPositionsSpec(s: seq<Allele>, n: string, upto: nat)
    requires upto <= |s|
    ensures forall q: nat :: q in AttrPositions(s, n, upto) <==> q < upto && s[q] == Attr(n)
    ensures forall a, b :: 0 <= a < b < |AttrPositions(s, n, upto)| ==>
              AttrPositions(s, n, upto)[a] < AttrPositions(s, n, upto)[b]
    decreases upto
  {
    if upto > 0 {
      AttrPositionsSpec(s, n, upto - 1);
      var prev := AttrPositions(s, n, upto - 1);
      var cur := AttrPositions(s, n, upto);
      forall a, b | 0 <= a < b < |cur|
        ensures cur[a] < cur[b]
      {
        if b < |prev| {
          assert cur[a] == prev[a] && cur[b] == prev[b];
        } else {
          assert cur[a] == prev[a] && prev[a] in prev;
        }
      }
    }
  }

  /** The positions listed for name `n`: those of the first group with that name. */
  function Positions(gs: seq<Group>, n: string): seq<nat>
  {
    if gs == [] then [] else if gs[0].name == n then gs[0].positions else Positions(gs[1..], n)
  }

  predicate Sorted(gs: seq<Group>)
  {
    forall a, b :: 0 <= a < b < |gs| ==> StrLess(gs[a].name, gs[b].name)
  }

  predicate NonEmpty(gs: seq<Group>)
  {
    forall a :: 0 <= a < |gs| ==> gs[a].positions != []
  }

  /** Record that slot `p` holds `Attr(name)`: extend that name's group, or open one in name order. */
  function AddPosition(gs: seq<Group>, name: string, p: nat): seq<Group>
  {
    if gs == [] then [Group(name, [p])]
    else if gs[0].name == name then [Group(name, gs[0].positions + [p])] + gs[1..]
    else if StrLess(name, gs[0].name) then [Group(name, [p])] + gs
    else [gs[0]] + AddPosition(gs[1..], name, p)
  }

  lemma {:induction false} PositionsAbsent(gs: seq<Group>, n: string)
    requires Sorted(gs) && gs != [] && StrLess(n, gs[0].name)
    ensures Positions(gs, n) == []
    decreases |gs|
  {
    StrLessIrreflexive(n);
    if |gs| > 1 {
      assert StrLess(gs[0].name, gs[1..][0].name);
      StrLessTransitive(n, gs[0].name, gs[1].name);
      assert Sorted(gs[1..]) by {
        forall a, b | 0 <= a < b < |gs[1..]|
          ensures StrLess(gs[1..][a].name, gs[1..][b].name)
        {
          assert gs[1..][a] == gs[a + 1] && gs[1..][b] == gs[b + 1];
        }
      }
      PositionsAbsent(gs[1..], n);
    }
  }

  lemma SortedTail(gs: seq<Group>)
    requires Sorted(gs) && gs != []
    ensures Sorted(gs[1..])
  {
    forall a, b | 0 <= a < b < |gs[1..]|
      ensures StrLess(gs[1..][a].name, gs[1..][b].name)
    {
      assert gs[1..][a] == gs[a + 1] && gs[1..][b] == gs[b + 1];
    }
  }

  /** Adding a position extends exactly the list of its own name. */
  lemma {:induction false} AddPositionPositions(gs: seq<Group>, name: string, p: nat, m: string)
    requires Sorted(gs)
    ensures Positions(AddPosition(gs, name, p), m) ==
            if m == name then Positions(gs, m) + [p] else Positions(gs, m)
    decreases |gs|
  {
    if gs != [] && gs[0].name != name {
      if StrLess(name, gs[0].name) {
        if m == name {
          PositionsAbsent(gs, name);
        }
      } else {
        SortedTail(gs);
        AddPositionPositions(gs[1..], name, p, m);
      }
    }
  }

  /** Every name in the result was already there or is the one added. */
  lemma {:induction false} AddPositionNames(gs: seq<Group>, name: string, p: nat)
    ensures forall a :: 0 <= a < |AddPosition(gs, name, p)| ==>
              AddPosition(gs, name, p)[a].name == name ||
              exists b :: 0 <= b < |gs| && gs[b].name == AddPosition(gs, name, p)[a].name
    decreases |gs|
  {
    if gs != [] && gs[0].name != name && !StrLess(name, gs[0].name) {
      AddPositionNames(gs[1..], name, p);
      var r := AddPosition(gs, name, p);
      forall a | 1 <= a < |r|
        ensures r[a].name == name || exists b :: 0 <= b < |gs| && gs[b].name == r[a].name
      {
        assert r[a] == AddPosition(gs[1..], name, p)[a - 1];
        if r[a].name != name {
          var b :| 0 <= b < |gs[1..]| && gs[1..][b].name == r[a].name;
          assert gs[b + 1].name == r[a].name;
        }
      }
    }
  }

  /** A group named below the first of a sorted list may go in front of it. */
  lemma PrependSorted(g: Group, gs: seq<Group>)
    requires Sorted(gs) && (gs != [] ==> StrLess(g.name, gs[0].name))
    ensures Sorted([g] + gs)
  {
    var r := [g] + gs;
    forall a, b | 0 <= a < b < |r|
      ensures StrLess(r[a].name, r[b].name)
    {
      assert r[b] == gs[b - 1];
      if a == 0 {
        if b > 1 {
          StrLessTransitive(g.name, gs[0].name, gs[b - 1].name);
        }
      } else {
        assert r[a] == gs[a - 1];
      }
    }
  }

  lemma {:induction false} AddPositionSorted(gs: seq<Group>, name: string, p: nat)
    requires Sorted(gs) && NonEmpty(gs)
    ensures Sorted(AddPosition(gs, name, p)) && NonEmpty(AddPosition(gs, name, p))
    decreases |gs|
  {
    var r := AddPosition(gs, name, p);
    if gs == [] {
    } else if gs[0].name == name {
      SortedTail(gs);
      PrependSorted(Group(name, gs[0].positions + [p]), gs[1..]);
      assert forall a :: 1 <= a < |r| ==> r[a] == gs[a];
    } else if StrLess(name, gs[0].name) {
      PrependSorted(Group(name, [p]), gs);
      assert forall a :: 1 <= a < |r| ==> r[a] == gs[a - 1];
    } else {
      SortedTail(gs);
      AddPositionSorted(gs[1..], name, p);
      var t := AddPosition(gs[1..], name, p);
      assert r == [gs[0]] + t;
      if t != [] {
        AddPositionNames(gs[1..], name, p);
        if t[0].name == name {
          StrLessTotal(name, gs[0].name);
        } else {
          var k :| 0 <= k < |gs[1..]| && gs[1..][k].name == t[0].name;
          assert gs[k + 1].name == t[0].name;
        }
      }
      PrependSorted(gs[0], t);
      assert forall a :: 1 <= a < |r| ==> r[a] == t[a - 1];
    }
  }

  /** The groups of the attribute terminals among the first `upto` alleles. */
  function TerminalGroups(s: seq<Allele>, upto: nat): seq<Group>
    requires upto <= |s|
  {
    if upto == 0 then []
    else
      var gs := TerminalGroups(s, upto - 1);
      if s[upto - 1].Attr? then AddPosition(gs, s[upto - 1].name, upto - 1) else gs
  }

  /** `gs` lists, in ascending name order, every attribute name of `s` once with all its positions in ascending order. */
  ghost predicate GroupsOf(s: seq<Allele>, gs: seq<Group>)
  {
    && Sorted(gs)
    && NonEmpty(gs)
    && forall n :: Positions(gs, n) == AttrPositions(s, n, |s|)
  }

  lemma {:induction false} TerminalGroupsSorted(s: seq<Allele>, upto: nat)
    requires upto <= |s|
    ensures Sorted(TerminalGroups(s, upto)) && NonEmpty(TerminalGroups(s, upto))
    decreases upto
  {
    if upto > 0 {
      TerminalGroupsSorted(s, upto - 1);
      if s[upto - 1].Attr? {
        AddPositionSorted(TerminalGroups(s, upto - 1), s[upto - 1].name, upto - 1);
      }
    }
  }

  lemma {:induction false} TerminalGroupsUpto(s: seq<Allele>, upto: nat)
    requires upto <= |s|
    ensures forall n :: Positions(TerminalGroups(s, upto), n) == AttrPositions(s, n, upto)
    decreases upto
  {
    if upto > 0 {
      TerminalGroupsUpto(s, upto - 1);
      TerminalGroupsSorted(s, upto - 1);
      forall n
        ensures Positions(TerminalGroups(s, upto), n) == AttrPositions(s, n, upto)
      {
        TerminalGroupsStep(s, upto, n);
      }
    }
  }

  /** One more slot extends the positions of its own name only. */
  lemma TerminalGroupsStep(s: seq<Allele>, upto: nat, n: string)
    requires 0 < upto <= |s|
    requires Sorted(TerminalGroups(s, upto - 1))
    requires Positions(TerminalGroups(s, upto - 1), n) == AttrPositions(s, n, upto - 1)
    ensures Positions(TerminalGroups(s, upto), n) == AttrPositions(s, n, upto)
  {
    if s[upto - 1].Attr? {
      AddPositionPositions(TerminalGroups(s, upto - 1), s[upto - 1].name, upto - 1, n);
    }
  }

  lemma TerminalGroupsSpec(s: seq<Allele>)
    ensures GroupsOf(s, TerminalGroups(s, |s|))
  {
    TerminalGroupsSorted(s, |s|);
    TerminalGroupsUpto(s, |s|);
  }

  /** A group of `GroupsOf(s, gs)` is non-empty, holds exactly the slots of its name, and no earlier group has that name. */
  lemma GroupPositions(s: seq<Allele>, gs: seq<Group>, g: nat)
    requires GroupsOf(s, gs) && g < |gs|
    ensures gs[g].positions != []
    ensures forall q: nat :: q in gs[g].positions <==> q < |s| && s[q] == Attr(gs[g].name)
    ensures forall j :: 0 <= j < |gs[g].positions| ==> gs[g].positions[j] < |s|
    ensures forall j :: 0 <= j < g ==> gs[j].name != gs[g].name
  {
    PositionsOfGroup(gs, g);
    AttrPositionsSpec(s, gs[g].name, |s|);
    assert forall j :: 0 <= j < |gs[g].positions| ==> gs[g].positions[j] in gs[g].positions;
    forall j | 0 <= j < g
      ensures gs[j].name != gs[g].name
    {
      assert StrLess(gs[j].name, gs[g].name);
      StrLessIrreflexive(gs[g].name);
    }
  }

  /** Every attribute slot of `s` has its name among the groups. */
  lemma GroupsCover(s: seq<Allele>, gs: seq<Group>, k: nat)
    requires GroupsOf(s, gs) && k < |s| && s[k].Attr?
    ensures exists j :: 0 <= j < |gs| && gs[j].name == s[k].name
  {
    AttrPositionsSpec(s, s[k].name, |s|);
    assert k in AttrPositions(s, s[k].name, |s|);
    PositionsFound(gs, s[k].name);
  }

  /** With names in order, each group is the one `Positions` finds for its name. */
  lemma {:induction false} PositionsOfGroup(gs: seq<Group>, g: nat)
    requires Sorted(gs) && g < |gs|
    ensures Positions(gs, gs[g].name) == gs[g].positions
    decreases g
  {
    if g > 0 {
      assert StrLess(gs[0].name, gs[g].name);
      StrLessIrreflexive(gs[g].name);
      SortedTail(gs);
      assert gs[1..][g - 1] == gs[g];
      PositionsOfGroup(gs[1..], g - 1);
    }
  }

  /** A name with listed positions has a group of its own. */
  lemma {:induction false} PositionsFound(gs: seq<Group>, n: string)
    requires Positions(gs, n) != []
    ensures exists j :: 0 <= j < |gs| && gs[j].name == n && gs[j].positions == Positions(gs, n)
    decreases |gs|
  {
    if gs[0].name != n {
      PositionsFound(gs[1..], n);
      var j :| 0 <= j < |gs[1..]| && gs[1..][j].name == n && gs[1..][j].positions == Positions(gs[1..], n);
      assert gs[j + 1] == gs[1..][j];
    }
  }

  /** The grouping of the library's worked example: attribute `a` at slots 2 and 4. */
  lemma TerminalGroupsExample()
    ensures TerminalGroups([Fn(Add), Fn(Subtract), Attr("a"), Const(1), Attr("a")], 5) == [Group("a", [2, 4])]
  {
    var s := [Fn(Add), Fn(Subtract), Attr("a"), Const(1), Attr("a")];
    assert TerminalGroups(s, 2) == [];
    assert TerminalGroups(s, 3) == [Group("a", [2])];
    assert TerminalGroups(s, 4) == [Group("a", [2])];
    assert TerminalGroups(s, 5) == AddPosition([Group("a", [2])], "a", 4);
    assert [Group("a", [2])][1..] == [] && [2] + [4] == [2, 4];
    assert AddPosition([Group("a", [2])], "a", 4) == [Group("a", [2, 4])];
  }
}
