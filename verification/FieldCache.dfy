/** The write-once cache of field names of contrail-collector/db_handler.cc. */
module FieldCache {
  /** A call: the time window of a message, and the table, field and value recorded. */
  datatype Call = Call(window: nat, entry: string)

  class Cache {
    var index: nat            // field_cache_index_
    var entries: set<string>  // field_cache_set_

    /** The cache after these calls. */
    ghost predicate After(history: seq<Call>)
      reads this
    {
      && (forall c :: c in history ==> c.window <= index)
      && (index == 0 || exists c :: c in history && c.window == index)
      && (forall e :: e in entries <==> Call(index, e) in history)
    }

    constructor ()
      ensures After([])
    {
      index, entries := 0, {};
    }

    /**
      CanRecordDataForT2, given the window of the time: a call is accepted exactly if no call before
      it had a later window, or the same window and entry.
     */
    method CanRecordDataForT2(window: nat, entry: string, ghost history: seq<Call>) returns (record: bool)
      requires After(history)
      modifies this
      ensures After(history + [Call(window, entry)])
      ensures record <==> Accepted(history, Call(window, entry))
    {
      record := false;
      assert forall c :: c in history + [Call(window, entry)] <==> c in history || c == Call(window, entry);
      if window > index {
        index, entries := window, {entry};
        record := true;
        assert Call(window, entry) in history + [Call(window, entry)];
      } else if window == index {
        if entry !in entries {
          entries := entries + {entry};
          record := true;
        }
      } else {
        assert index != 0;
        ghost var c :| c in history && c.window == index;
      }
    }
  }

  ghost predicate Accepted(history: seq<Call>, call: Call) {
    (forall c :: c in history ==> c.window <= call.window) && call !in history
  }

  /** In any sequence of calls each window and entry is accepted at most once, and only the first time it comes. */
  lemma AcceptedOnce(calls: seq<Call>, i: nat, j: nat)
    requires i < j < |calls| && calls[i] == calls[j]
    ensures !Accepted(calls[..j], calls[j])
  {
    assert calls[..j][i] == calls[i];
  }

  /** The first time it comes it is accepted exactly if no later window was seen before. */
  lemma FirstAccepted(calls: seq<Call>, i: nat)
    requires i < |calls| && calls[i] !in calls[..i]
    ensures Accepted(calls[..i], calls[i]) <==> forall j :: 0 <= j < i ==> calls[j].window <= calls[i].window
  {
    assert forall c :: c in calls[..i] ==> exists j :: 0 <= j < i && calls[j] == c;
    assert forall j :: 0 <= j < i ==> calls[..i][j] == calls[j];
  }
}
