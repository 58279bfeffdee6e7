/** The registry that creates stopwatches under unique ids and remembers every one
    it created. */
module StopwatchRegistry {
  import opened Outcomes
  import opened Stopwatches

  /** No two of the stopwatches share an id. */
  ghost predicate DistinctIds(s: seq<Stopwatch>) {
    forall i, j :: 0 <= i < j < |s| ==> s[i].id != s[j].id
  }

  /** The ids of the stopwatches. */
  ghost function Ids(s: seq<Stopwatch>): (ids: set<string>)
    ensures forall i :: 0 <= i < |s| ==> s[i].id in ids
    ensures forall x :: x in ids ==> exists i :: 0 <= i < |s| && s[i].id == x
  {
    if s == [] then {} else Ids(s[..|s| - 1]) + {s[|s| - 1].id}
  }

  /** With distinct ids there are as many ids as stopwatches. */
  lemma {:induction false} IdsCardinality(s: seq<Stopwatch>)
    requires DistinctIds(s)
    ensures |Ids(s)| == |s|
  {
    if s != [] {
      var init := s[..|s| - 1];
      IdsCardinality(init);
      assert forall i :: 0 <= i < |init| ==> init[i] == s[i];
      assert s[|s| - 1].id !in Ids(init);
    }
  }

  /** The factory's class-wide state: the ids handed out so far and the stopwatches
      created, in creation order. */
  class StopwatchFactory {
    var usedIds: set<string>
    var allStopwatches: seq<Stopwatch>

    /** Every created stopwatch has its own id, and the used ids are exactly theirs. */
    ghost predicate Valid()
      reads this
    {
      DistinctIds(allStopwatches) && usedIds == Ids(allStopwatches)
    }

    constructor ()
      ensures usedIds == {} && allStopwatches == [] && Valid()
    {
      usedIds := {};
      allStopwatches := [];
    }

    /** A new stopwatch under the given id. A null (`None`), empty or already used
        id throws IllegalArgumentException and changes nothing; otherwise the id
        becomes used and the new stopwatch is appended to the list and returned. */
    method GetStopwatch(id: Option<string>) returns (r: Result<Stopwatch>)
      requires Valid()
      modifies this
      ensures Valid()
      ensures r.Err? <==> id == None || id == Some("") || id.value in old(usedIds)
      ensures r.Err? ==> r.error == IllegalArgument
      ensures r.Err? ==> usedIds == old(usedIds) && allStopwatches == old(allStopwatches)
      ensures r.Ok? ==> fresh(r.value) && r.value.id == id.value && r.value.State() == Cleared
      ensures r.Ok? ==> usedIds == old(usedIds) + {id.value} && allStopwatches == old(allStopwatches) + [r.value]
    {
      if id == None {
        return Err(IllegalArgument);
      }
      if id.value == "" {
        return Err(IllegalArgument);
      }
      if id.value in usedIds {
        return Err(IllegalArgument);
      }
      var stopwatch := new Stopwatch(id.value);
      usedIds := usedIds + {id.value};
      allStopwatches := allStopwatches + [stopwatch];
      assert allStopwatches[..|allStopwatches| - 1] == old(allStopwatches);
      return Ok(stopwatch);
    }

    /** A copy of the list of created stopwatches, in creation order. */
    method GetStopwatches() returns (list: seq<Stopwatch>)
      ensures list == allStopwatches
    {
      list := allStopwatches;
    }

    /** As many ids are in use as stopwatches were created. */
    lemma UsedIdsCount()
      requires Valid()
      ensures |usedIds| == |allStopwatches|
    {
      IdsCardinality(allStopwatches);
    }
  }
}
