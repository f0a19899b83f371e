/**
 Which positions of a document a run of edits reaches that always takes the first position still holding the
 node: in a mapping one position at a time, in a list every position of the node at once.
 */
module Scans {
  import opened Strings

  /** A position in document order: who holds what there, whether the holder is a list, and whether it was chosen. */
  datatype Mark<T> = Mark(holder: T, index: nat, node: T, list: bool, chosen: bool)

  /** What goes in one edit. */
  datatype Unit<T> = Unit(holder: T, node: T, index: nat)

  function UnitOf<T>(m: Mark<T>): Unit<T> {
    Unit(m.holder, m.node, if m.list then 0 else m.index)
  }

  ghost predicate Taken<T>(m: Mark<T>, units: set<Unit<T>>) {
    UnitOf(m) in units
  }

  /** The first position that still holds the node. */
  ghost function FirstLeft<T>(marks: seq<Mark<T>>, units: set<Unit<T>>, x: T): Option<Mark<T>> {
    if marks == [] then None
    else if marks[0].node == x && !Taken(marks[0], units) then Some(marks[0])
    else FirstLeft(marks[1..], units, x)
  }

  lemma {:induction false} FirstLeftConcat<T>(a: seq<Mark<T>>, b: seq<Mark<T>>, units: set<Unit<T>>, x: T)
    ensures FirstLeft(a + b, units, x)
         == if FirstLeft(a, units, x).Some? then FirstLeft(a, units, x) else FirstLeft(b, units, x)
  {
    if a == [] {
      assert a + b == b;
    } else {
      assert (a + b)[1..] == a[1..] + b && (a + b)[0] == a[0];
      FirstLeftConcat(a[1..], b, units, x);
    }
  }

  lemma {:induction false} FirstLeftIs<T>(marks: seq<Mark<T>>, units: set<Unit<T>>, x: T)
    ensures var m := FirstLeft(marks, units, x);
      && (m.None? <==> forall o :: o in marks && o.node == x ==> Taken(o, units))
      && (m.Some? ==> m.value in marks && m.value.node == x && !Taken(m.value, units))
  {
    if marks != [] {
      FirstLeftIs(marks[1..], units, x);
      assert marks == [marks[0]] + marks[1..];
    }
  }

  /** The edits of the nodes one after the other; no result once a node is held nowhere any more. */
  ghost function Struck<T>(marks: seq<Mark<T>>, units: set<Unit<T>>, xs: seq<T>): Option<set<Unit<T>>>
    decreases |xs|
  {
    if xs == [] then Some(units)
    else
      var m := FirstLeft(marks, units, xs[0]);
      if m.None? then None else Struck(marks, units + {UnitOf(m.value)}, xs[1..])
  }

  // ----- one pass over the positions

  /** The first c units of the node that are left. */
  ghost function FirstUnits<T>(marks: seq<Mark<T>>, y: T, c: nat, units: set<Unit<T>>): set<Unit<T>> {
    if marks == [] || c == 0 then units
    else if marks[0].node == y && !Taken(marks[0], units) then
      FirstUnits(marks[1..], y, c - 1, units + {UnitOf(marks[0])})
    else FirstUnits(marks[1..], y, c, units)
  }

  /** How many units of the node are left. */
  ghost function UnitsLeft<T>(marks: seq<Mark<T>>, y: T, units: set<Unit<T>>): nat {
    if marks == [] then 0
    else if marks[0].node == y && !Taken(marks[0], units) then
      1 + UnitsLeft(marks[1..], y, units + {UnitOf(marks[0])})
    else UnitsLeft(marks[1..], y, units)
  }

  /** Units of other nodes do not matter. */
  lemma {:induction false} OthersIrrelevant<T>(marks: seq<Mark<T>>, y: T, c: nat, units: set<Unit<T>>,
                                               more: set<Unit<T>>)
    requires forall u :: u in more ==> u.node != y
    ensures FirstUnits(marks, y, c, units + more) == FirstUnits(marks, y, c, units) + more
    ensures UnitsLeft(marks, y, units + more) == UnitsLeft(marks, y, units)
  {
    if marks != [] {
      var m := marks[0];
      if m.node == y && !Taken(m, units) {
        assert units + more + {UnitOf(m)} == units + {UnitOf(m)} + more;
        OthersIrrelevant(marks[1..], y, if c == 0 then 0 else c - 1, units + {UnitOf(m)}, more);
      } else {
        OthersIrrelevant(marks[1..], y, c, units, more);
      }
    }
  }

  /** A node's edits skip what is taken, so that taking the first position now or later makes no difference. */
  lemma {:induction false} FirstTaken<T>(marks: seq<Mark<T>>, y: T, c: nat, units: set<Unit<T>>)
    ensures var m := FirstLeft(marks, units, y);
      && (m.None? ==> UnitsLeft(marks, y, units) == 0)
      && (m.Some? ==>
            && FirstUnits(marks, y, c + 1, units) == FirstUnits(marks, y, c, units + {UnitOf(m.value)})
            && UnitsLeft(marks, y, units) == 1 + UnitsLeft(marks, y, units + {UnitOf(m.value)}))
  {
    if marks != [] {
      FirstTaken(marks[1..], y, c, units);
      FirstUnitsGrow(marks, y, 0, units);
    }
  }

  lemma {:induction false} FirstUnitsGrow<T>(marks: seq<Mark<T>>, y: T, c: nat, units: set<Unit<T>>)
    ensures units <= FirstUnits(marks, y, c, units)
    ensures forall u :: u in FirstUnits(marks, y, c, units) ==> u in units || u.node == y
  {
    if marks != [] {
      if marks[0].node == y && !Taken(marks[0], units) && c > 0 {
        FirstUnitsGrow(marks[1..], y, c - 1, units + {UnitOf(marks[0])});
      } else {
        FirstUnitsGrow(marks[1..], y, c, units);
      }
    }
  }

  function Times<T(==)>(xs: seq<T>, y: T): nat {
    multiset(xs)[y]
  }

  lemma {:induction false} TimesStep<T>(xs: seq<T>, y: T)
    requires xs != []
    ensures Times(xs, y) == (if xs[0] == y then 1 else 0) + Times(xs[1..], y)
  {
    assert xs == [xs[0]] + xs[1..];
  }

  /** The edits finish exactly if no node is to be edited more often than it has units. */
  lemma {:induction false} StruckFinishes<T>(marks: seq<Mark<T>>, units: set<Unit<T>>, xs: seq<T>)
    ensures Struck(marks, units, xs).Some? <==> forall y :: y in xs ==> Times(xs, y) <= UnitsLeft(marks, y, units)
    decreases |xs|
  {
    if xs != [] {
      var x, rest := xs[0], xs[1..];
      assert forall y :: y in xs <==> y == x || y in rest;
      var m := FirstLeft(marks, units, x);
      FirstTaken(marks, x, 0, units);
      TimesStep(xs, x);
      if m.Some? {
        FirstLeftIs(marks, units, x);
        var now := units + {UnitOf(m.value)};
        StruckFinishes(marks, now, rest);
        forall y | y in rest && y != x
          ensures Times(xs, y) == Times(rest, y) && UnitsLeft(marks, y, now) == UnitsLeft(marks, y, units)
        {
          TimesStep(xs, y);
          OthersIrrelevant(marks, y, 0, units, {UnitOf(m.value)});
        }
        assert x !in rest ==> Times(rest, x) == 0;
      }
    }
  }

  /** Which units go: for every node the first ones, as many as it is edited. */
  lemma {:induction false} StruckMeaning<T>(marks: seq<Mark<T>>, units: set<Unit<T>>, xs: seq<T>, u: Unit<T>)
    requires Struck(marks, units, xs).Some?
    ensures u in Struck(marks, units, xs).value <==> u in FirstUnits(marks, u.node, Times(xs, u.node), units)
    decreases |xs|
  {
    if xs == [] {
      FirstUnitsGrow(marks, u.node, 0, units);
    } else {
      var x, rest := xs[0], xs[1..];
      var m := FirstLeft(marks, units, x).value;
      FirstLeftIs(marks, units, x);
      var now := units + {UnitOf(m)};
      StruckMeaning(marks, now, rest, u);
      TimesStep(xs, u.node);
      if u.node == x {
        FirstTaken(marks, x, Times(rest, x), units);
      } else {
        OthersIrrelevant(marks, u.node, Times(rest, u.node), units, {UnitOf(m)});
      }
    }
  }

  // ----- chosen positions

  ghost function ChosenNodes<T>(marks: seq<Mark<T>>): seq<T> {
    if marks == [] then [] else (if marks[0].chosen then [marks[0].node] else []) + ChosenNodes(marks[1..])
  }

  lemma {:induction false} ChosenConcat<T>(a: seq<Mark<T>>, b: seq<Mark<T>>)
    ensures ChosenNodes(a + b) == ChosenNodes(a) + ChosenNodes(b)
  {
    if a == [] {
      assert a + b == b;
    } else {
      assert (a + b)[1..] == a[1..] + b && (a + b)[0] == a[0];
      ChosenConcat(a[1..], b);
    }
  }

  /** How often the node was chosen. */
  ghost function Wanted<T>(marks: seq<Mark<T>>, y: T): nat {
    if marks == [] then 0 else (if marks[0].node == y && marks[0].chosen then 1 else 0) + Wanted(marks[1..], y)
  }

  lemma {:induction false} WantedTimes<T>(marks: seq<Mark<T>>, y: T)
    ensures Wanted(marks, y) == Times(ChosenNodes(marks), y)
  {
    if marks != [] {
      WantedTimes(marks[1..], y);
      var xs := ChosenNodes(marks);
      if marks[0].chosen {
        assert xs[0] == marks[0].node && xs[1..] == ChosenNodes(marks[1..]);
        TimesStep(xs, y);
      } else {
        assert xs == ChosenNodes(marks[1..]);
      }
    }
  }

  lemma {:induction false} WantedSome<T>(marks: seq<Mark<T>>, k: nat)
    requires k < |marks| && marks[k].chosen
    ensures Wanted(marks, marks[k].node) > 0 && marks[k].node in ChosenNodes(marks)
  {
    if k > 0 {
      WantedSome(marks[1..], k - 1);
    }
  }

  /** What goes if every chosen position asks for one edit of its node. */
  ghost function Going<T>(marks: seq<Mark<T>>, y: T): set<Unit<T>> {
    FirstUnits(marks, y, Wanted(marks, y), {})
  }

  /** The positions that go are exactly the chosen ones. */
  ghost predicate Agree<T>(marks: seq<Mark<T>>) {
    forall k :: 0 <= k < |marks| ==> (Taken(marks[k], Going(marks, marks[k].node)) <==> marks[k].chosen)
  }

  /** Chosen positions of a node come before the others of the node. */
  ghost predicate Foremost<T>(marks: seq<Mark<T>>) {
    forall j, k :: 0 <= j < k < |marks| && marks[k].chosen && marks[j].node == marks[k].node ==> marks[j].chosen
  }

  /** No other position goes together with a chosen one. */
  ghost predicate Singly<T>(marks: seq<Mark<T>>) {
    forall j, k :: 0 <= j < |marks| && 0 <= k < |marks| && j != k && marks[k].chosen ==>
        UnitOf(marks[j]) != UnitOf(marks[k])
  }

  // ----- when exactly the chosen positions go

  /** A chosen position that stays has an earlier one of its node that goes without being chosen. */
  lemma {:induction false} EarlierStray<T>(marks: seq<Mark<T>>, y: T, c: nat, units: set<Unit<T>>, k: nat)
    requires k < |marks| && marks[k].node == y && marks[k].chosen && !Taken(marks[k], FirstUnits(marks, y, c, units))
    requires forall j :: 0 <= j < k && marks[j].node == y && Taken(marks[j], FirstUnits(marks, y, c, units)) ==>
               marks[j].chosen
    ensures Wanted(marks, y) > c
  {
    FirstUnitsGrow(marks, y, c, units);
    if c > 0 {
      var taken := marks[0].node == y && !Taken(marks[0], units);
      var now := if taken then units + {UnitOf(marks[0])} else units;
      FirstUnitsGrow(marks[1..], y, if taken then c - 1 else c, now);
      EarlierStray(marks[1..], y, if taken then c - 1 else c, now, k - 1);
    } else {
      WantedSome(marks, k);
    }
  }

  ghost function CountTaken<T>(marks: seq<Mark<T>>, y: T, units: set<Unit<T>>): nat {
    if marks == [] then 0
    else (if marks[0].node == y && Taken(marks[0], units) then 1 else 0) + CountTaken(marks[1..], y, units)
  }

  lemma {:induction false} CountGrows<T>(marks: seq<Mark<T>>, y: T, units: set<Unit<T>>, more: set<Unit<T>>)
    requires units <= more
    ensures CountTaken(marks, y, units) <= CountTaken(marks, y, more)
    ensures forall k :: 0 <= k < |marks| && marks[k].node == y && Taken(marks[k], more) && !Taken(marks[k], units) ==>
              CountTaken(marks, y, units) < CountTaken(marks, y, more)
  {
    if marks != [] {
      CountGrows(marks[1..], y, units, more);
      forall k | 0 <= k < |marks| && marks[k].node == y && Taken(marks[k], more) && !Taken(marks[k], units)
        ensures CountTaken(marks, y, units) < CountTaken(marks, y, more)
      {
        assert k > 0 ==> marks[k] == marks[1..][k - 1];
      }
    }
  }

  /** Every unit that goes takes a position at least, and one more if two positions go together. */
  lemma {:induction false} CountAtLeast<T>(marks: seq<Mark<T>>, y: T, c: nat, units: set<Unit<T>>)
    requires UnitsLeft(marks, y, units) >= c
    ensures CountTaken(marks, y, FirstUnits(marks, y, c, units)) >= c + CountTaken(marks, y, units)
    ensures forall j, k :: 0 <= j < k < |marks| && Together(marks, y, c, units, j, k) ==>
              CountTaken(marks, y, FirstUnits(marks, y, c, units)) > c + CountTaken(marks, y, units)
  {
    if marks != [] && c > 0 {
      var rest := marks[1..];
      var taken := marks[0].node == y && !Taken(marks[0], units);
      var now, d := if taken then units + {UnitOf(marks[0])} else units, if taken then c - 1 else c;
      CountAtLeast(rest, y, d, now);
      CountGrows(rest, y, units, now);
      FirstUnitsGrow(rest, y, d, now);
      forall j, k | 0 <= j < k < |marks| && Together(marks, y, c, units, j, k)
        ensures CountTaken(marks, y, FirstUnits(marks, y, c, units)) > c + CountTaken(marks, y, units)
      {
        assert marks[k] == rest[k - 1];
        if taken && UnitOf(marks[k]) == UnitOf(marks[0]) {
          assert Taken(rest[k - 1], now) && !Taken(rest[k - 1], units);
        } else {
          assert marks[j] == rest[j - 1] && Together(rest, y, d, now, j - 1, k - 1);
        }
      }
    }
  }

  /** Two positions of the node that go together now. */
  ghost predicate Together<T>(marks: seq<Mark<T>>, y: T, c: nat, units: set<Unit<T>>, j: nat, k: nat)
    requires j < |marks| && k < |marks|
  {
    && marks[j].node == y && marks[k].node == y && UnitOf(marks[j]) == UnitOf(marks[k])
    && Taken(marks[k], FirstUnits(marks, y, c, units)) && !Taken(marks[k], units)
  }

  lemma {:induction false} CountAgree<T>(marks: seq<Mark<T>>, y: T, units: set<Unit<T>>)
    requires forall k :: 0 <= k < |marks| && marks[k].node == y ==> (Taken(marks[k], units) <==> marks[k].chosen)
    ensures CountTaken(marks, y, units) == Wanted(marks, y)
  {
    if marks != [] {
      CountAgree(marks[1..], y, units);
    }
  }

  lemma {:induction false} CountNone<T>(marks: seq<Mark<T>>, y: T)
    ensures CountTaken(marks, y, {}) == 0
  {
    if marks != [] {
      CountNone(marks[1..], y);
    }
  }

  /** If a position goes and an earlier one of its node stays, one before both goes together with it. */
  lemma {:induction false} Downward<T>(marks: seq<Mark<T>>, y: T, c: nat, units: set<Unit<T>>, j: nat, k: nat)
    returns (i: nat)
    requires j < k < |marks| && marks[j].node == y && marks[k].node == y && !Taken(marks[k], units)
    requires Taken(marks[k], FirstUnits(marks, y, c, units)) && !Taken(marks[j], FirstUnits(marks, y, c, units))
    ensures i < j && UnitOf(marks[i]) == UnitOf(marks[k])
  {
    var taken := marks[0].node == y && !Taken(marks[0], units);
    var now, d := if taken then units + {UnitOf(marks[0])} else units, if taken then c - 1 else c;
    FirstUnitsGrow(marks[1..], y, d, now);
    if taken && UnitOf(marks[k]) == UnitOf(marks[0]) {
      i := 0;
    } else {
      var i' := Downward(marks[1..], y, d, now, j - 1, k - 1);
      i := i' + 1;
    }
  }

  /** Every chosen node has as many units as it is chosen. */
  ghost predicate Enough<T>(marks: seq<Mark<T>>) {
    forall y :: y in ChosenNodes(marks) ==> Wanted(marks, y) <= UnitsLeft(marks, y, {})
  }

  lemma {:induction false} AgreeIsOrderly<T>(marks: seq<Mark<T>>)
    requires Agree(marks) && Enough(marks)
    ensures Foremost(marks) && Singly(marks)
  {
    forall j: nat, k: nat | j < |marks| && k < |marks| && j != k && marks[k].chosen
      ensures UnitOf(marks[j]) != UnitOf(marks[k])
    {
      AgreeSingly(marks, j, k);
    }
    forall j: nat, k: nat | j < k < |marks| && marks[k].chosen && marks[j].node == marks[k].node
      ensures marks[j].chosen
    {
      AgreeForemost(marks, j, k);
    }
  }

  lemma {:induction false} AgreeForemost<T>(marks: seq<Mark<T>>, j: nat, k: nat)
    requires Agree(marks) && Enough(marks) && j < k < |marks| && marks[k].chosen && marks[j].node == marks[k].node
    ensures marks[j].chosen
  {
    if !marks[j].chosen {
      var i := Downward(marks, marks[k].node, Wanted(marks, marks[k].node), {}, j, k);
      AgreeSingly(marks, i, k);
    }
  }

  lemma {:induction false} AgreeSingly<T>(marks: seq<Mark<T>>, j: nat, k: nat)
    requires Agree(marks) && Enough(marks) && j < |marks| && k < |marks| && j != k && marks[k].chosen
    ensures UnitOf(marks[j]) != UnitOf(marks[k])
  {
    if UnitOf(marks[j]) == UnitOf(marks[k]) {
      var y := marks[k].node;
      var c := Wanted(marks, y);
      WantedSome(marks, k);
      CountAtLeast(marks, y, c, {});
      CountAgree(marks, y, Going(marks, y));
      CountNone(marks, y);
      var a, b := if j < k then j else k, if j < k then k else j;
      assert Together(marks, y, c, {}, a, b);
    }
  }

  ghost predicate FromChosen<T>(marks: seq<Mark<T>>, units: set<Unit<T>>) {
    forall u :: u in units ==> exists j :: 0 <= j < |marks| && marks[j].chosen && UnitOf(marks[j]) == u
  }

  /** From position i on exactly the chosen positions go, if those before are dealt with. */
  lemma {:induction false} OrderlyFrom<T>(marks: seq<Mark<T>>, y: T, i: nat, units: set<Unit<T>>)
    requires Foremost(marks) && Singly(marks) && i <= |marks| && FromChosen(marks, units)
    requires forall j :: i <= j < |marks| ==> !Taken(marks[j], units)
    ensures var rest := marks[i..];
      var all := FirstUnits(rest, y, Wanted(rest, y), units);
      && FromChosen(marks, all) && UnitsLeft(rest, y, units) >= Wanted(rest, y)
      && forall k :: i <= k < |marks| && marks[k].node == y && marks[k].chosen ==> Taken(marks[k], all)
    decreases |marks| - i
  {
    var rest := marks[i..];
    if i < |marks| {
      assert rest[0] == marks[i] && rest[1..] == marks[i + 1..];
      if marks[i].node == y && marks[i].chosen {
        var now := units + {UnitOf(marks[i])};
        OrderlyFrom(marks, y, i + 1, now);
        FirstUnitsGrow(marks[i + 1..], y, Wanted(marks[i + 1..], y), now);
      } else if marks[i].node == y {
        NoneWanted(marks, y, i + 1);
      } else {
        OrderlyFrom(marks, y, i + 1, units);
      }
    }
  }

  lemma {:induction false} NoneWanted<T>(marks: seq<Mark<T>>, y: T, i: nat)
    requires i <= |marks| && forall k :: i <= k < |marks| && marks[k].node == y ==> !marks[k].chosen
    ensures Wanted(marks[i..], y) == 0
    decreases |marks| - i
  {
    if i < |marks| {
      assert marks[i..][0] == marks[i] && marks[i..][1..] == marks[i + 1..];
      NoneWanted(marks, y, i + 1);
    }
  }

  lemma {:induction false} OrderlyAgrees<T>(marks: seq<Mark<T>>)
    requires Foremost(marks) && Singly(marks)
    ensures Agree(marks) && Enough(marks)
  {
    assert marks[0..] == marks;
    forall k | 0 <= k < |marks|
      ensures Taken(marks[k], Going(marks, marks[k].node)) <==> marks[k].chosen
    {
      OrderlyFrom(marks, marks[k].node, 0, {});
    }
    forall y | y in ChosenNodes(marks)
      ensures Wanted(marks, y) <= UnitsLeft(marks, y, {})
    {
      OrderlyFrom(marks, y, 0, {});
    }
  }

  /** The edits finish and exactly the chosen positions go, if and only if each goes singly and before its like. */
  lemma {:induction false} OrderlyExactly<T>(marks: seq<Mark<T>>)
    ensures Agree(marks) && Enough(marks) <==> Foremost(marks) && Singly(marks)
  {
    if Agree(marks) && Enough(marks) {
      AgreeIsOrderly(marks);
    }
    if Foremost(marks) && Singly(marks) {
      OrderlyAgrees(marks);
    }
  }

  // ----- when exactly no chosen position stays

  lemma {:induction false} UnitsCount<T>(marks: seq<Mark<T>>, y: T, c: nat, units: set<Unit<T>>)
    ensures |FirstUnits(marks, y, c, units)| <= |units| + c
  {
    if marks != [] && c > 0 {
      if marks[0].node == y && !Taken(marks[0], units) {
        UnitsCount(marks[1..], y, c - 1, units + {UnitOf(marks[0])});
      } else {
        UnitsCount(marks[1..], y, c, units);
      }
    }
  }

  ghost function ChosenUnits<T>(marks: seq<Mark<T>>, y: T): set<Unit<T>> {
    if marks == [] then {}
    else (if marks[0].chosen && marks[0].node == y then {UnitOf(marks[0])} else {}) + ChosenUnits(marks[1..], y)
  }

  lemma {:induction false} ChosenUnitsAre<T>(marks: seq<Mark<T>>, y: T)
    ensures forall k :: 0 <= k < |marks| && marks[k].chosen && marks[k].node == y ==>
        UnitOf(marks[k]) in ChosenUnits(marks, y)
    ensures forall u :: u in ChosenUnits(marks, y) ==>
              exists k :: 0 <= k < |marks| && marks[k].chosen && marks[k].node == y && UnitOf(marks[k]) == u
  {
    if marks != [] {
      var rest := marks[1..];
      ChosenUnitsAre(rest, y);
      assert forall k :: 0 < k < |marks| ==> marks[k] == rest[k - 1];
      forall u | u in ChosenUnits(marks, y)
        ensures exists k :: 0 <= k < |marks| && marks[k].chosen && marks[k].node == y && UnitOf(marks[k]) == u
      {
        if u in ChosenUnits(rest, y) {
          var k :| 0 <= k < |rest| && rest[k].chosen && rest[k].node == y && UnitOf(rest[k]) == u;
          assert marks[k + 1] == rest[k];
        } else {
          assert UnitOf(marks[0]) == u;
        }
      }
    }
  }

  lemma {:induction false} ChosenCount<T>(marks: seq<Mark<T>>, y: T)
    requires Singly(marks)
    ensures |ChosenUnits(marks, y)| == Wanted(marks, y)
  {
    if marks != [] {
      var rest := marks[1..];
      assert forall k :: 0 < k < |marks| ==> marks[k] == rest[k - 1];
      forall j: nat, k: nat | j < |rest| && k < |rest| && j != k && rest[k].chosen
        ensures UnitOf(rest[j]) != UnitOf(rest[k])
      {
        assert UnitOf(marks[j + 1]) != UnitOf(marks[k + 1]);
      }
      ChosenCount(rest, y);
      if marks[0].chosen && marks[0].node == y {
        ChosenUnitsAre(rest, y);
        assert UnitOf(marks[0]) !in ChosenUnits(rest, y);
      }
    }
  }

  /** No chosen position stays. */
  ghost predicate AllGo<T>(marks: seq<Mark<T>>) {
    forall k :: 0 <= k < |marks| && marks[k].chosen ==> Taken(marks[k], Going(marks, marks[k].node))
  }

  /** Where no other position goes together with a chosen one: all chosen ones go exactly if they come first. */
  lemma {:induction false} AllGoExactly<T>(marks: seq<Mark<T>>)
    requires Singly(marks)
    ensures AllGo(marks) <==> Foremost(marks)
  {
    if Foremost(marks) {
      OrderlyAgrees(marks);
    }
    if AllGo(marks) {
      forall j: nat, k: nat | j < k < |marks| && marks[k].chosen && marks[j].node == marks[k].node
        ensures marks[j].chosen
      {
        AllGoForemost(marks, j, k);
      }
    }
  }

  lemma {:induction false} AllGoForemost<T>(marks: seq<Mark<T>>, j: nat, k: nat)
    requires Singly(marks) && AllGo(marks) && j < k < |marks| && marks[k].chosen && marks[j].node == marks[k].node
    ensures marks[j].chosen
  {
    var y := marks[k].node;
    var chosen, going := ChosenUnits(marks, y), Going(marks, y);
    ChosenUnitsAre(marks, y);
    ChosenCount(marks, y);
    UnitsCount(marks, y, Wanted(marks, y), {});
    SameSize(chosen, going);
    if !Taken(marks[j], going) {
      var _ := Downward(marks, y, Wanted(marks, y), {}, j, k);
    }
  }

  lemma {:induction false} SameSize<X>(a: set<X>, b: set<X>)
    requires a <= b && |b| <= |a|
    ensures a == b
  {
    assert b == a + (b - a);
  }

  // ----- edits that skip a node held nowhere any more

  /** The edits of the nodes one after the other; a node without a position left is passed over. */
  ghost function Sown<T>(marks: seq<Mark<T>>, units: set<Unit<T>>, xs: seq<T>): set<Unit<T>>
    decreases |xs|
  {
    if xs == [] then units
    else
      var m := FirstLeft(marks, units, xs[0]);
      Sown(marks, if m.None? then units else units + {UnitOf(m.value)}, xs[1..])
  }

  lemma {:induction false} NoneLeft<T>(marks: seq<Mark<T>>, y: T, c: nat, units: set<Unit<T>>)
    requires UnitsLeft(marks, y, units) == 0
    ensures FirstUnits(marks, y, c, units) == units
  {
    if marks != [] && c > 0 {
      NoneLeft(marks[1..], y, c, units);
    }
  }

  /** Which units go: for every node the first ones, as many as it is edited or has. */
  lemma {:induction false} SownMeaning<T>(marks: seq<Mark<T>>, units: set<Unit<T>>, xs: seq<T>, u: Unit<T>)
    ensures u in Sown(marks, units, xs) <==> u in FirstUnits(marks, u.node, Times(xs, u.node), units)
    decreases |xs|
  {
    if xs == [] {
      FirstUnitsGrow(marks, u.node, 0, units);
    } else {
      var x, rest := xs[0], xs[1..];
      var m := FirstLeft(marks, units, x);
      FirstLeftIs(marks, units, x);
      FirstTaken(marks, x, Times(rest, x), units);
      TimesStep(xs, u.node);
      if m.None? {
        SownMeaning(marks, units, rest, u);
        if u.node == x {
          NoneLeft(marks, x, Times(xs, x), units);
          NoneLeft(marks, x, Times(rest, x), units);
        }
      } else {
        SownMeaning(marks, units + {UnitOf(m.value)}, rest, u);
        if u.node != x {
          OthersIrrelevant(marks, u.node, Times(rest, u.node), units, {UnitOf(m.value)});
        }
      }
    }
  }
}
