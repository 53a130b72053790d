/** The append-only log of a relay room (operation_log.rs). */
module OperationLogs {
  import opened Ids
  import opened Keys
  import opened Operations

  ghost predicate DistinctIds(log: seq<Operation>) {
    forall i, j :: 0 <= i < j < |log| ==> log[i].opId != log[j].opId
  }

  ghost predicate Logged(log: seq<Operation>, id: ElementId) {
    exists i :: 0 <= i < |log| && log[i].opId == id
  }

  /** Appending an operation: the first one with a given identifier counts. */
  ghost function Appended(log: seq<Operation>, op: Operation): seq<Operation> {
    if Logged(log, op.opId) then log else log + [op]
  }

  ghost predicate KeyLogged(log: seq<Operation>, key: string) {
    exists i :: 0 <= i < |log| && Key(log[i].opId) == key
  }

  ghost predicate KeysOf(seen: set<string>, log: seq<Operation>) {
    forall key {:trigger KeyLogged(log, key)} :: key in seen <==> KeyLogged(log, key)
  }

  lemma KeyPushed(log: seq<Operation>, op: Operation, key: string)
    ensures KeyLogged(log + [op], key) <==> KeyLogged(log, key) || key == Key(op.opId)
  {
    var now := log + [op];
    assert now[|log|] == op && forall i :: 0 <= i < |log| ==> now[i] == log[i];
  }

  lemma KeysPushed(log: seq<Operation>, seen: set<string>, op: Operation)
    requires KeysOf(seen, log)
    ensures KeysOf(seen + {Key(op.opId)}, log + [op])
  {
    forall key ensures key in seen + {Key(op.opId)} <==> KeyLogged(log + [op], key) {
      KeyPushed(log, op, key);
    }
  }

  /** An identifier is logged exactly when its key is. */
  lemma KeyLoggedIff(log: seq<Operation>, id: ElementId)
    ensures KeyLogged(log, Key(id)) <==> Logged(log, id)
  {
    forall i | 0 <= i < |log| && Key(log[i].opId) == Key(id) ensures log[i].opId == id {
      KeyInjective(log[i].opId, id);
    }
  }

  class OperationLog {
    var operations: seq<Operation>
    var seen: set<string>

    ghost predicate Valid()
      reads this
    {
      DistinctIds(operations) && KeysOf(seen, operations)
    }

    constructor ()
      ensures Valid() && operations == []
    {
      operations := [];
      seen := {};
    }

    lemma SeenIsLogged(id: ElementId)
      requires Valid()
      ensures Key(id) in seen <==> Logged(operations, id)
    {
      KeyLoggedIff(operations, id);
    }

    method Append(operation: Operation) returns (isNew: bool)
      requires Valid()
      modifies this
      ensures Valid()
      ensures isNew <==> !Logged(old(operations), operation.opId)
      ensures operations == Appended(old(operations), operation)
    {
      SeenIsLogged(operation.opId);
      var key := Key(operation.opId);
      if key in seen {
        return false;
      }
      seen := seen + {key};
      operations := operations + [operation];
      KeysPushed(old(operations), old(seen), operation);
      isNew := true;
    }

    method Contains(operation: Operation) returns (r: bool)
      requires Valid()
      ensures r <==> Logged(operations, operation.opId)
    {
      SeenIsLogged(operation.opId);
      r := Key(operation.opId) in seen;
    }

    method Cloned() returns (r: seq<Operation>)
      ensures r == operations
    {
      r := operations;
    }
  }

  /** What a client that applies a whole log in order has received, starting from nothing. */
  lemma {:induction false} LogAsReceived(log: seq<Operation>, id: ElementId)
    requires DistinctIds(log)
    ensures id in ReceiveAll(map[], log) <==> Logged(log, id)
    ensures forall i :: 0 <= i < |log| ==>
              log[i].opId in ReceiveAll(map[], log) && ReceiveAll(map[], log)[log[i].opId] == log[i]
  {
    if log != [] {
      var n := |log| - 1;
      LogAsReceived(log[..n], id);
      LogAsReceived(log[..n], log[n].opId);
      if Logged(log, id) && id != log[n].opId {
        var i :| 0 <= i < |log| && log[i].opId == id;
        assert log[..n][i] == log[i];
      }
      forall i | 0 <= i < n
        ensures log[i].opId in ReceiveAll(map[], log) && ReceiveAll(map[], log)[log[i].opId] == log[i]
      {
        assert log[..n][i] == log[i];
      }
    }
  }
}
