/**
 What the name cache means: for each kind, the live objects in the order of the last exchange that
 changed them. Every lookup list is a projection of that one sequence.
 */
module CacheLog {
  import opened Names

  type Log = seq<IndexMappings>

  datatype Op =
    | Exchange(gvk: GVK, om: IndexMappings)
    | Remove(gvk: GVK, name: string)

  predicate Has(m: Mappings, index: string, key: string) {
    index in m && key in m[index]
  }

  function Contribution(o: IndexMappings, index: string, key: string): seq<Entry> {
    if Has(o.mappings, index, key) then [Entry(o.name, o.mappings[index][key])] else []
  }

  function Project(log: Log, index: string, key: string): seq<Entry> {
    if log == [] then []
    else Project(log[..|log| - 1], index, key) + Contribution(log[|log| - 1], index, key)
  }

  function FirstValue(entries: seq<Entry>): string {
    if entries == [] then "" else entries[0].value
  }

  /** Decoding of the first value found under a key. */
  function Resolve(log: Log, index: string, key: string): NamespacedName {
    var value := FirstValue(Project(log, index, key));
    if value == "" then NO_NAME else StringToNamespacedName(value)
  }

  function Without(log: Log, name: string): Log {
    if log == [] then []
    else
      var o := log[|log| - 1];
      Without(log[..|log| - 1], name) + if o.name == name then [] else [o]
  }

  function WithoutName(entries: seq<Entry>, name: string): seq<Entry> {
    if entries == [] then []
    else
      var e := entries[|entries| - 1];
      WithoutName(entries[..|entries| - 1], name) + if e.name == name then [] else [e]
  }

  function Exchanged(log: Log, o: IndexMappings): Log {
    if o in log then log
    else Without(log, o.name) + if o.mappings == map[] then [] else [o]
  }

  function ApplyOp(log: Log, op: Op, gvk: GVK): Log {
    if op.gvk != gvk then log
    else match op
      case Exchange(_, o) => Exchanged(log, o)
      case Remove(_, name) => Without(log, name)
  }

  /** The abstract cache content of one kind after a history of calls. */
  function Replay(history: seq<Op>, gvk: GVK): Log {
    if history == [] then []
    else ApplyOp(Replay(history[..|history| - 1], gvk), history[|history| - 1], gvk)
  }

  ghost predicate Distinct(log: Log) {
    forall i, j :: 0 <= i < j < |log| ==> log[i].name != log[j].name
  }

  // ----- facts about the sequence

  lemma {:induction false} WithoutMembers(log: Log, name: string)
    ensures forall o :: o in Without(log, name) <==> o in log && o.name != name
  {
    if log != [] {
      WithoutMembers(log[..|log| - 1], name);
      assert log == log[..|log| - 1] + [log[|log| - 1]];
    }
  }

  lemma {:induction false} WithoutDistinct(log: Log, name: string)
    requires Distinct(log)
    ensures Distinct(Without(log, name))
  {
    if log != [] {
      var init, last := log[..|log| - 1], log[|log| - 1];
      WithoutDistinct(init, name);
      WithoutMembers(init, name);
      forall i, j | 0 <= i < j < |Without(log, name)|
        ensures Without(log, name)[i].name != Without(log, name)[j].name
      {
        if j == |Without(init, name)| {
          assert Without(init, name)[i] in Without(init, name);
        }
      }
    }
  }

  lemma {:induction false} ExchangedDistinct(log: Log, o: IndexMappings)
    requires Distinct(log)
    ensures Distinct(Exchanged(log, o))
  {
    WithoutDistinct(log, o.name);
    WithoutMembers(log, o.name);
    forall i | 0 <= i < |Without(log, o.name)|
      ensures Without(log, o.name)[i].name != o.name
    {
      assert Without(log, o.name)[i] in Without(log, o.name);
    }
  }

  lemma {:induction false} ReplayDistinct(history: seq<Op>, gvk: GVK)
    ensures Distinct(Replay(history, gvk))
  {
    if history != [] {
      var init, op := history[..|history| - 1], history[|history| - 1];
      ReplayDistinct(init, gvk);
      match op
      case Exchange(_, o) => ExchangedDistinct(Replay(init, gvk), o);
      case Remove(_, name) => WithoutDistinct(Replay(init, gvk), name);
    }
  }

  /** Dropping an object from the sequence drops exactly its entries from every lookup list. */
  lemma {:induction false} ProjectWithout(log: Log, name: string, index: string, key: string)
    ensures Project(Without(log, name), index, key) == WithoutName(Project(log, index, key), name)
  {
    if log != [] {
      var init, o := log[..|log| - 1], log[|log| - 1];
      ProjectWithout(init, name, index, key);
      var entries := Project(log, index, key);
      if Has(o.mappings, index, key) {
        assert entries[..|entries| - 1] == Project(init, index, key);
      } else {
        assert entries == Project(init, index, key);
      }
      if o.name != name {
        var w := Without(log, name);
        assert w[..|w| - 1] == Without(init, name);
      } else {
        assert Without(log, name) == Without(init, name);
      }
    }
  }

  lemma {:induction false} ProjectAppend(log: Log, o: IndexMappings, index: string, key: string)
    ensures Project(log + [o], index, key) == Project(log, index, key) + Contribution(o, index, key)
  {
    assert (log + [o])[..|log|] == log;
  }

  /** Every entry of a lookup list is the contribution of an object of the sequence. */
  lemma {:induction false} ProjectSource(log: Log, index: string, key: string, i: nat) returns (k: nat)
    requires i < |Project(log, index, key)|
    ensures k < |log| && [Project(log, index, key)[i]] == Contribution(log[k], index, key)
  {
    var init := log[..|log| - 1];
    if i < |Project(init, index, key)| {
      k := ProjectSource(init, index, key, i);
    } else {
      k := |log| - 1;
    }
  }

  /** The first entry of a lookup list belongs to the first object of the sequence that has the key. */
  lemma {:induction false} ProjectFirst(log: Log, index: string, key: string) returns (k: nat)
    requires Project(log, index, key) != []
    ensures k < |log| && [Project(log, index, key)[0]] == Contribution(log[k], index, key)
    ensures forall j :: 0 <= j < k ==> !Has(log[j].mappings, index, key)
  {
    var init := log[..|log| - 1];
    if Project(init, index, key) != [] {
      k := ProjectFirst(init, index, key);
    } else {
      k := |log| - 1;
      ProjectEmpty(init, index, key);
    }
  }

  lemma {:induction false} ProjectEmpty(log: Log, index: string, key: string)
    ensures Project(log, index, key) == [] <==> forall o :: o in log ==> !Has(o.mappings, index, key)
  {
    if log != [] {
      ProjectEmpty(log[..|log| - 1], index, key);
      assert log == log[..|log| - 1] + [log[|log| - 1]];
    }
  }

  // ----- the history behind the sequence

  datatype Touch = Absent | Live(since: nat, om: IndexMappings)

  /**
   The live mappings of one object and the moment of the last exchange that changed them, read off
   the history of calls alone.
   */
  function LastTouch(history: seq<Op>, gvk: GVK, name: string): Touch {
    if history == [] then Absent
    else
      var init, op := history[..|history| - 1], history[|history| - 1];
      var before := LastTouch(init, gvk, name);
      if op.gvk != gvk then before
      else match op
        case Exchange(_, o) =>
          if o.name != name || (before.Live? && before.om == o) then before
          else if o.mappings == map[] then Absent
          else Live(|init|, o)
        case Remove(_, n) => if n == name then Absent else before
  }

  ghost predicate Ordered(log: Log, history: seq<Op>, gvk: GVK) {
    forall i, j :: 0 <= i < j < |log| ==> Since(history, gvk, log[i].name) < Since(history, gvk, log[j].name)
  }

  /** The position of an object in the log is its rank by last effective exchange. */
  ghost predicate Agrees(log: Log, history: seq<Op>, gvk: GVK) {
    && (forall i {:trigger log[i]} :: 0 <= i < |log| ==>
         LastTouch(history, gvk, log[i].name).Live? && LastTouch(history, gvk, log[i].name).om == log[i])
    && (forall name :: LastTouch(history, gvk, name).Live? ==>
         LastTouch(history, gvk, name).om in log
         && LastTouch(history, gvk, name).om.name == name
         && LastTouch(history, gvk, name).since < |history|)
    && Ordered(log, history, gvk)
  }

  function Since(history: seq<Op>, gvk: GVK, name: string): int {
    var t := LastTouch(history, gvk, name);
    if t.Live? then t.since else -1
  }

  /**
   The sequence holds exactly the live objects, each once, in the order of the last exchange that
   changed them.
   */
  lemma {:induction false} ReplayMeaning(history: seq<Op>, gvk: GVK)
    ensures Agrees(Replay(history, gvk), history, gvk)
  {
    if history != [] {
      var init, op := history[..|history| - 1], history[|history| - 1];
      ReplayMeaning(init, gvk);
      ReplayDistinct(init, gvk);
      assert history == init + [op];
      var log := Replay(init, gvk);
      if op.gvk != gvk {
        AgreesUntouched(log, init, op, gvk);
      } else {
        match op
        case Exchange(_, o) =>
          if o in log {
            AgreesUntouched(log, init, op, gvk);
          } else {
            AgreesWithout(log, init, op, gvk, o.name);
            AgreesAppended(Without(log, o.name), init, op, gvk);
          }
        case Remove(_, name) => AgreesWithout(log, init, op, gvk, name);
      }
    }
  }

  /** Nothing but the named object changes its touch under a call. */
  lemma {:induction false} TouchFrame(init: seq<Op>, op: Op, gvk: GVK, name: string)
    requires op.gvk != gvk || (if op.Exchange? then op.om.name else op.name) != name
    ensures LastTouch(init + [op], gvk, name) == LastTouch(init, gvk, name)
  {
    assert (init + [op])[..|init|] == init;
  }

  lemma {:induction false} AgreesUntouched(log: Log, init: seq<Op>, op: Op, gvk: GVK)
    requires Agrees(log, init, gvk)
    requires op.gvk != gvk || (op.Exchange? && op.om in log)
    ensures Agrees(log, init + [op], gvk)
  {
    var history := init + [op];
    assert history[..|init|] == init;
    forall name
      ensures LastTouch(history, gvk, name) == LastTouch(init, gvk, name)
    {
      if op.gvk == gvk && op.om.name == name {
        var i :| 0 <= i < |log| && log[i] == op.om;
        assert LastTouch(init, gvk, log[i].name).Live?;
      }
    }
  }

  /** What Agrees needs of every object other than the one a call names. */
  ghost predicate AgreesExcept(log: Log, history: seq<Op>, gvk: GVK, out: string, limit: nat) {
    && (forall i {:trigger log[i]} :: 0 <= i < |log| ==>
         log[i].name != out
         && LastTouch(history, gvk, log[i].name).Live? && LastTouch(history, gvk, log[i].name).om == log[i])
    && (forall name :: name != out && LastTouch(history, gvk, name).Live? ==>
         LastTouch(history, gvk, name).om in log
         && LastTouch(history, gvk, name).om.name == name
         && LastTouch(history, gvk, name).since < limit)
    && Ordered(log, history, gvk)
  }

  lemma {:induction false} AgreesWithout(log: Log, init: seq<Op>, op: Op, gvk: GVK, out: string)
    requires Agrees(log, init, gvk) && Distinct(log)
    requires op.gvk == gvk && out == if op.Exchange? then op.om.name else op.name
    requires op.Exchange? ==> op.om !in log
    ensures AgreesExcept(Without(log, out), init + [op], gvk, out, |init|)
    ensures op.Remove? ==> Agrees(Without(log, out), init + [op], gvk)
  {
    var history := init + [op];
    assert history[..|init|] == init;
    var w := Without(log, out);
    WithoutMembers(log, out);
    forall i {:trigger w[i]} | 0 <= i < |w|
      ensures w[i].name != out
      ensures LastTouch(history, gvk, w[i].name).Live? && LastTouch(history, gvk, w[i].name).om == w[i]
    {
      assert w[i] in w;
      TouchFrame(init, op, gvk, w[i].name);
    }
    forall name | name != out && LastTouch(history, gvk, name).Live?
      ensures LastTouch(history, gvk, name).om in w
      ensures LastTouch(history, gvk, name).om.name == name && LastTouch(history, gvk, name).since < |init|
    {
      TouchFrame(init, op, gvk, name);
    }
    SinceWithout(log, init, gvk, out);
    assert Ordered(w, init, gvk);
    forall i, j | 0 <= i < j < |w|
      ensures Since(history, gvk, w[i].name) < Since(history, gvk, w[j].name)
    {
      TouchFrame(init, op, gvk, w[i].name);
      TouchFrame(init, op, gvk, w[j].name);
    }
  }

  lemma {:induction false} SinceWithout(log: Log, history: seq<Op>, gvk: GVK, out: string)
    requires Ordered(log, history, gvk)
    ensures Ordered(Without(log, out), history, gvk)
  {
    if log != [] {
      var init, last := log[..|log| - 1], log[|log| - 1];
      assert forall i :: 0 <= i < |init| ==> init[i] == log[i];
      SinceWithout(init, history, gvk, out);
      WithoutMembers(init, out);
      var w := Without(init, out);
      forall i | 0 <= i < |w|
        ensures Since(history, gvk, w[i].name) < Since(history, gvk, last.name)
      {
        assert w[i] in w;
        var k :| 0 <= k < |init| && init[k] == w[i];
        assert log[k] == w[i];
      }
      var r := Without(log, out);
      assert r == w + if last.name == out then [] else [last];
      forall i, j | 0 <= i < j < |r|
        ensures Since(history, gvk, r[i].name) < Since(history, gvk, r[j].name)
      {
        assert r[i] == w[i];
        assert if j < |w| then r[j] == w[j] else r[j] == last;
      }
    }
  }

  lemma {:induction false} AgreesAppended(w: Log, init: seq<Op>, op: Op, gvk: GVK)
    requires op.Exchange? && op.gvk == gvk
    requires AgreesExcept(w, init + [op], gvk, op.om.name, |init|)
    requires !(LastTouch(init, gvk, op.om.name).Live? && LastTouch(init, gvk, op.om.name).om == op.om)
    ensures Agrees(w + if op.om.mappings == map[] then [] else [op.om], init + [op], gvk)
  {
    var history := init + [op];
    assert history[..|init|] == init;
    var o := op.om;
    if o.mappings != map[] {
      assert LastTouch(history, gvk, o.name) == Live(|init|, o);
      forall i | 0 <= i < |w|
        ensures Since(history, gvk, w[i].name) < |init|
      {
        assert w[i].name != o.name;
      }
    } else {
      assert w + [] == w;
    }
  }

  /**
   The oldest survivor answers a lookup: the value returned first belongs to the live object that has
   the key and whose last effective exchange is the earliest; and nothing is returned exactly when no
   live object has the key.
   */
  lemma {:induction false} OldestSurvivor(history: seq<Op>, gvk: GVK, index: string, key: string)
    ensures var entries := Project(Replay(history, gvk), index, key);
      if entries == [] then
        forall name :: LastTouch(history, gvk, name).Live? ==>
          !Has(LastTouch(history, gvk, name).om.mappings, index, key)
      else
        var first := LastTouch(history, gvk, entries[0].name);
        && first.Live? && Has(first.om.mappings, index, key)
        && first.om.mappings[index][key] == entries[0].value
        && forall name :: LastTouch(history, gvk, name).Live?
             && Has(LastTouch(history, gvk, name).om.mappings, index, key)
             ==> first.since <= LastTouch(history, gvk, name).since
  {
    var log := Replay(history, gvk);
    ReplayMeaning(history, gvk);
    ProjectEmpty(log, index, key);
    if Project(log, index, key) != [] {
      var k := ProjectFirst(log, index, key);
      forall name | LastTouch(history, gvk, name).Live?
        && Has(LastTouch(history, gvk, name).om.mappings, index, key)
        ensures LastTouch(history, gvk, log[k].name).since <= LastTouch(history, gvk, name).since
      {
        var o := LastTouch(history, gvk, name).om;
        var j :| 0 <= j < |log| && log[j] == o;
        assert k <= j;
        if k < j {
          assert Since(history, gvk, log[k].name) < Since(history, gvk, log[j].name);
        }
      }
    }
  }
}
