/** Creating a chain of linked jobs from one request. */
module JobChain {
  import opened Wrappers

  datatype Row = Row(link: Option<int>, chainStatus: int)

  /** The row of the i-th job of the request. */
  function RowOf(ids: seq<int>, i: nat): Row
    requires i < |ids|
  {
    Row(if i + 1 < |ids| then Some(ids[i + 1]) else None, if i == 0 then 0 else 1)
  }

  /** The job table after the jobs from the last down to the i-th have been written. */
  function Written(table: map<int, Row>, ids: seq<int>, i: nat): map<int, Row>
    requires i <= |ids|
    decreases |ids| - i
  {
    if i == |ids| then table else Written(table, ids, i + 1)[ids[i] := RowOf(ids, i)]
  }

  /** The identifiers of a request, with a stand-in for those that do not parse. */
  function Ids(request: seq<Option<int>>): seq<int> {
    seq(|request|, i requires 0 <= i < |request| => if request[i].Some? then request[i].value else 0)
  }

  /** How storing one job goes: it may fail before its row is written, or at a later call, with the row
      already there. */
  datatype Outcome = Stored | NotStored | FailsLater

  predicate Goes(request: seq<Option<int>>, outcomes: nat -> Outcome, k: nat)
    requires k < |request|
  {
    request[k].Some? && outcomes(k) == Stored
  }

  /** The first job whose row is in the table when a walk ends at `stop`. */
  function RowsFrom(request: seq<Option<int>>, outcomes: nat -> Outcome, stop: int): nat
    requires -1 <= stop < |request|
  {
    if stop >= 0 && request[stop].Some? && outcomes(stop) == FailsLater then stop else stop + 1
  }

  class JobHandler {
    var table: map<int, Row>

    constructor ()
      ensures table == map[]
    {
      table := map[];
    }

    /** Walks the request from its last job to its first, so that each job can name the one after it. An
        identifier that does not parse, or a job that fails, ends the walk at position `stop` and leaves the
        rows of the jobs after it, and its own if it failed late, in the table; -1 is a walk to the end. */
    method CreateJobData(request: seq<Option<int>>, outcomes: nat -> Outcome)
      returns (jobIDs: array<int>, ok: bool, stop: int)
      modifies this
      ensures fresh(jobIDs) && jobIDs.Length == |request|
      ensures -1 <= stop < |request| && (ok <==> request != [] && stop == -1)
      ensures forall k :: stop < k < |request| ==> Goes(request, outcomes, k) && jobIDs[k] == request[k].value
      ensures stop >= 0 ==> !Goes(request, outcomes, stop)
      ensures table == Written(old(table), Ids(request), RowsFrom(request, outcomes, stop))
      ensures ok ==> forall k :: 0 <= k < |request| && (forall j :: 0 <= j < k ==> request[j] != request[k]) ==>
                && request[k].Some? && request[k].value in table
                && table[request[k].value] == Row(if k + 1 < |request| then request[k + 1] else None,
                                                  if k == 0 then 0 else 1)
    {
      jobIDs := new int[|request|];
      if |request| == 0 {
        return jobIDs, false, -1;
      }
      ghost var ids := Ids(request);
      stop := |request| - 1;
      while stop >= 0
        invariant -1 <= stop < |request|
        invariant forall k :: stop < k < |request| ==> Goes(request, outcomes, k) && jobIDs[k] == request[k].value
        invariant table == Written(old(table), ids, stop + 1)
      {
        var chainStatus := 1;
        var link: Option<int> := None;
        if stop == 0 {
          chainStatus := 0;
        }
        if stop < |request| - 1 {
          link := Some(jobIDs[stop + 1]);
        }
        var stored := StoreJob(request[stop], Row(link, chainStatus), outcomes(stop));
        if !stored {
          return jobIDs, false, stop;
        }
        jobIDs[stop] := request[stop].value;
        stop := stop - 1;
      }
      ok := true;
      forall k | 0 <= k < |request| && (forall j :: 0 <= j < k ==> request[j] != request[k])
        ensures ids[k] in table && table[ids[k]] == RowOf(ids, k)
      {
        WrittenRow(old(table), ids, 0, k);
      }
    }

    /** The loop body: parse the identifier, write the row, carry on with the calls after it. */
    method StoreJob(id: Option<int>, row: Row, outcome: Outcome) returns (ok: bool)
      modifies this
      ensures ok == (id.Some? && outcome == Stored)
      ensures table == if id.Some? && outcome != NotStored then old(table)[id.value := row] else old(table)
    {
      if id == None {
        return false;
      }
      if outcome == NotStored {
        return false;
      }
      table := table[id.value := row];
      return outcome != FailsLater;
    }
  }

  // ----- Following the links -----

  ghost predicate Distinct(ids: seq<int>) {
    forall i, j :: 0 <= i < j < |ids| ==> ids[i] != ids[j]
  }

  /** Following links from the first id visits these ids in this order and then stops. */
  ghost predicate IsChain(table: map<int, Row>, ids: seq<int>) {
    forall i :: 0 <= i < |ids| ==> LinksOn(table, ids, i)
  }

  ghost predicate LinksOn(table: map<int, Row>, ids: seq<int>, i: nat)
    requires i < |ids|
  {
    ids[i] in table && table[ids[i]].link == if i + 1 < |ids| then Some(ids[i + 1]) else None
  }

  /** The last write to an id is the one of its first position in the request. */
  lemma {:induction false} WrittenRow(table: map<int, Row>, ids: seq<int>, i: nat, k: nat)
    requires i <= k < |ids| && forall j :: i <= j < k ==> ids[j] != ids[k]
    ensures ids[k] in Written(table, ids, i) && Written(table, ids, i)[ids[k]] == RowOf(ids, k)
    decreases |ids| - i
  {
    if i < k {
      WrittenRow(table, ids, i + 1, k);
    }
  }

  /** Chain linking: the links lead through the request's jobs in order, each once, and end after the last,
      exactly when the ids are distinct. */
  lemma ChainIff(table: map<int, Row>, ids: seq<int>)
    ensures IsChain(Written(table, ids, 0), ids) <==> Distinct(ids)
  {
    var t := Written(table, ids, 0);
    if Distinct(ids) {
      forall i | 0 <= i < |ids| ensures ids[i] in t && t[ids[i]] == RowOf(ids, i) {
        WrittenRow(table, ids, 0, i);
      }
    } else if IsChain(t, ids) {
      var i, j :| 0 <= i < j < |ids| && ids[i] == ids[j];
      ChainHasNoRepeat(t, ids, i, j);
    }
  }

  /** Two equal entries would have equal successors, all the way to the end of the chain. */
  lemma {:induction false} ChainHasNoRepeat(table: map<int, Row>, ids: seq<int>, i: nat, j: nat)
    requires IsChain(table, ids) && i < j < |ids|
    ensures ids[i] != ids[j]
    decreases |ids| - j
  {
    if j + 1 < |ids| {
      ChainHasNoRepeat(table, ids, i + 1, j + 1);
    }
    assert LinksOn(table, ids, i) && LinksOn(table, ids, j);
  }

  /** In a chain of distinct jobs exactly the first has status 0, and other jobs keep their rows. */
  lemma OnlyFirstIsHead(table: map<int, Row>, ids: seq<int>, k: nat)
    requires Distinct(ids) && k < |ids|
    ensures ids[k] in Written(table, ids, 0) && (Written(table, ids, 0)[ids[k]].chainStatus == 0 <==> k == 0)
  {
    WrittenRow(table, ids, 0, k);
  }

  lemma {:induction false} OthersUntouched(table: map<int, Row>, ids: seq<int>, i: nat, id: int)
    requires i <= |ids| && id !in ids && id in table
    ensures id in Written(table, ids, i) && Written(table, ids, i)[id] == table[id]
    decreases |ids| - i
  {
    if i < |ids| {
      OthersUntouched(table, ids, i + 1, id);
    }
  }
}
