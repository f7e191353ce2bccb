/** The lock bookkeeping shared by the locking tests: every lock acquired is released after each test. */
module LockingFixtures {
  import opened Wrappers
  import opened Xml

  /** The HTTP status of a successful release. */
  const OK_STATUS: int := 200

  /** The release request for one lock: the request entity with releaseAction="ALL" and that lockId. */
  function ReleaseRequest(trxEntity: Node, lockId: string): (r: Node)
    requires trxEntity.Element?
    ensures r.Element?
  {
    SetAttribute(SetAttribute(trxEntity, "releaseAction", "ALL"), "lockId", lockId)
  }

  class LockingFixture {
    /** The identifiers of the locks acquired and not yet released. */
    var locks: seq<string>

    constructor ()
      ensures locks == []
    {
      locks := [];
    }

    /** A test records a lock it acquired. */
    method AddLock(lockId: string)
      modifies this
      ensures locks == old(locks) + [lockId]
    {
      locks := locks + [lockId];
    }

    /**
     * releaseAllLocks: one Transaction per lock, in order, carrying releaseAction="ALL" and that
     * lock's lockId; a release the service refuses is only reported. Afterwards no lock is recorded.
     * statusOf stands for the service's answer to a request; failed lists the locks it refused.
     */
    method ReleaseAllLocks(trxEntity: Node, statusOf: Node -> int) returns (submitted: seq<Node>, failed: seq<string>)
      requires trxEntity.Element?
      modifies this
      ensures locks == []
      ensures submitted == ReleaseRequests(trxEntity, old(locks))
      ensures failed == Refused(trxEntity, old(locks), statusOf)
    {
      submitted, failed := SubmitReleases(trxEntity, locks, statusOf);
      locks := [];
    }
  }

  /** The release requests for the given locks, in order. */
  function ReleaseRequests(trxEntity: Node, lockIds: seq<string>): (r: seq<Node>)
    requires trxEntity.Element?
    ensures |r| == |lockIds|
  {
    if lockIds == [] then []
    else ReleaseRequests(trxEntity, lockIds[..|lockIds| - 1]) + [ReleaseRequest(trxEntity, lockIds[|lockIds| - 1])]
  }

  /** The i-th request submitted releases the i-th lock. */
  lemma {:induction false} ReleaseRequestsIndex(trxEntity: Node, lockIds: seq<string>, i: nat)
    requires trxEntity.Element? && i < |lockIds|
    ensures ReleaseRequests(trxEntity, lockIds)[i] == ReleaseRequest(trxEntity, lockIds[i])
    decreases |lockIds|
  {
    if i < |lockIds| - 1 {
      ReleaseRequestsIndex(trxEntity, lockIds[..|lockIds| - 1], i);
    }
  }

  /**
   * The release loop: the same entity, with releaseAction="ALL", gets each lock's lockId in turn
   * and is submitted; a refused release is recorded and the loop goes on.
   */
  method SubmitReleases(trxEntity: Node, lockIds: seq<string>, statusOf: Node -> int) returns (submitted: seq<Node>, failed: seq<string>)
    requires trxEntity.Element?
    ensures submitted == ReleaseRequests(trxEntity, lockIds)
    ensures failed == Refused(trxEntity, lockIds, statusOf)
  {
    submitted, failed := [], [];
    if lockIds == [] {
      return;
    }
    var entity := SetAttribute(trxEntity, "releaseAction", "ALL");
    var i := 0;
    while i < |lockIds|
      invariant 0 <= i <= |lockIds|
      invariant entity == LoopEntity(trxEntity, lockIds, i)
      invariant submitted == ReleaseRequests(trxEntity, lockIds[..i])
      invariant failed == Refused(trxEntity, lockIds[..i], statusOf)
    {
      ReleaseEntityStep(trxEntity, lockIds, i);
      ReleaseLoopStep(trxEntity, lockIds, i, statusOf);
      entity := SetAttribute(entity, "lockId", lockIds[i]);
      submitted := submitted + [entity];
      if statusOf(entity) != OK_STATUS {
        failed := failed + [lockIds[i]];
      }
      i := i + 1;
    }
    assert lockIds[..i] == lockIds;
  }

  /** The entity the loop reuses after i rounds: releaseAction="ALL" and, once a round has run, the last lockId set. */
  function LoopEntity(trxEntity: Node, lockIds: seq<string>, i: nat): Node
    requires trxEntity.Element? && i <= |lockIds|
  {
    if i == 0 then SetAttribute(trxEntity, "releaseAction", "ALL") else ReleaseRequest(trxEntity, lockIds[i - 1])
  }

  /** The entity reused by the loop, given the next lockId, is that lock's release request. */
  lemma ReleaseEntityStep(trxEntity: Node, lockIds: seq<string>, i: nat)
    requires trxEntity.Element? && i < |lockIds|
    ensures SetAttribute(LoopEntity(trxEntity, lockIds, i), "lockId", lockIds[i]) == ReleaseRequest(trxEntity, lockIds[i])
    ensures LoopEntity(trxEntity, lockIds, i + 1) == ReleaseRequest(trxEntity, lockIds[i])
  {
    if i > 0 {
      SetAttributeTwice(SetAttribute(trxEntity, "releaseAction", "ALL"), "lockId", lockIds[i - 1], lockIds[i]);
    }
  }

  /** Extending the released prefix by one lock adds its request, and its id when the service refuses it. */
  lemma ReleaseLoopStep(trxEntity: Node, lockIds: seq<string>, i: nat, statusOf: Node -> int)
    requires trxEntity.Element? && i < |lockIds|
    ensures ReleaseRequests(trxEntity, lockIds[..i + 1]) ==
      ReleaseRequests(trxEntity, lockIds[..i]) + [ReleaseRequest(trxEntity, lockIds[i])]
    ensures Refused(trxEntity, lockIds[..i + 1], statusOf) ==
      Refused(trxEntity, lockIds[..i], statusOf) +
      (if statusOf(ReleaseRequest(trxEntity, lockIds[i])) != OK_STATUS then [lockIds[i]] else [])
  {
    var prefix := lockIds[..i + 1];
    assert prefix[..i] == lockIds[..i] && prefix[i] == lockIds[i];
  }

  /** Setting an attribute a second time leaves the element as if only the second value had been set. */
  lemma SetAttributeTwice(e: Node, name: string, first: string, second: string)
    requires e.Element?
    ensures SetAttribute(SetAttribute(e, name, first), name, second) == SetAttribute(e, name, second)
  {
    SetAttrTwice(e.attrs, name, first, second);
  }

  lemma {:induction false} SetAttrTwice(attrs: seq<Attr>, name: string, first: string, second: string)
    ensures SetAttr(SetAttr(attrs, name, first), name, second) == SetAttr(attrs, name, second)
    decreases |attrs|
  {
    if attrs != [] && attrs[0].name != name {
      SetAttrTwice(attrs[1..], name, first, second);
      assert SetAttr(attrs, name, first)[1..] == SetAttr(attrs[1..], name, first);
    }
  }

  /**
   * A release request carries releaseAction="ALL" and its lockId, and every other attribute, the
   * name and the content of the request entity unchanged.
   */
  lemma ReleaseRequestAttributes(trxEntity: Node, lockId: string)
    requires trxEntity.Element?
    ensures var r := ReleaseRequest(trxEntity, lockId);
      r.ns == trxEntity.ns && r.prefix == trxEntity.prefix && r.local == trxEntity.local &&
      r.children == trxEntity.children
    ensures GetAttr(ReleaseRequest(trxEntity, lockId).attrs, "releaseAction") == Some("ALL")
    ensures GetAttr(ReleaseRequest(trxEntity, lockId).attrs, "lockId") == Some(lockId)
    ensures forall other :: other != "releaseAction" && other != "lockId" ==>
      GetAttr(ReleaseRequest(trxEntity, lockId).attrs, other) == GetAttr(trxEntity.attrs, other)
  {
  }

  /** The locks whose release request the service does not answer with OK, in order. */
  function Refused(trxEntity: Node, lockIds: seq<string>, statusOf: Node -> int): (r: seq<string>)
    requires trxEntity.Element?
    ensures |r| <= |lockIds|
  {
    if lockIds == [] then []
    else
      var init := Refused(trxEntity, lockIds[..|lockIds| - 1], statusOf);
      if statusOf(ReleaseRequest(trxEntity, lockIds[|lockIds| - 1])) != OK_STATUS then init + [lockIds[|lockIds| - 1]] else init
  }

  /** The service refused the release of lock k. */
  predicate RefusedAt(trxEntity: Node, lockIds: seq<string>, statusOf: Node -> int, k: int)
    requires trxEntity.Element?
  {
    0 <= k < |lockIds| && statusOf(ReleaseRequest(trxEntity, lockIds[k])) != OK_STATUS
  }

  /** A lock is reported as not released exactly when the service refused the release of a lock with that id. */
  lemma {:induction false} RefusedExactly(trxEntity: Node, lockIds: seq<string>, statusOf: Node -> int, id: string)
    requires trxEntity.Element?
    ensures id in Refused(trxEntity, lockIds, statusOf) <==>
      exists k :: RefusedAt(trxEntity, lockIds, statusOf, k) && lockIds[k] == id
    decreases |lockIds|
  {
    if lockIds != [] {
      var n := |lockIds| - 1;
      var init := lockIds[..n];
      var tail := if RefusedAt(trxEntity, lockIds, statusOf, n) then [lockIds[n]] else [];
      assert Refused(trxEntity, lockIds, statusOf) == Refused(trxEntity, init, statusOf) + tail;
      assert id in Refused(trxEntity, lockIds, statusOf) <==>
        id in Refused(trxEntity, init, statusOf) || (RefusedAt(trxEntity, lockIds, statusOf, n) && lockIds[n] == id);
      RefusedExactly(trxEntity, init, statusOf, id);
      if id in Refused(trxEntity, lockIds, statusOf) {
        if id in Refused(trxEntity, init, statusOf) {
          var k :| RefusedAt(trxEntity, init, statusOf, k) && init[k] == id;
          assert RefusedAt(trxEntity, lockIds, statusOf, k) && lockIds[k] == id;
        } else {
          assert RefusedAt(trxEntity, lockIds, statusOf, n) && lockIds[n] == id;
        }
      } else {
        forall k | RefusedAt(trxEntity, lockIds, statusOf, k) ensures lockIds[k] != id {
          if k < n {
            assert RefusedAt(trxEntity, init, statusOf, k) && init[k] == lockIds[k];
            assert init[k] != id;
          } else {
            assert k == n;
          }
        }
      }
    }
  }

  /** When every release is answered OK, no lock is reported. */
  lemma NoneRefusedWhenAllOk(trxEntity: Node, lockIds: seq<string>, statusOf: Node -> int)
    requires trxEntity.Element?
    requires forall k :: 0 <= k < |lockIds| ==> statusOf(ReleaseRequest(trxEntity, lockIds[k])) == OK_STATUS
    ensures Refused(trxEntity, lockIds, statusOf) == []
  {
    var r := Refused(trxEntity, lockIds, statusOf);
    if r != [] {
      RefusedExactly(trxEntity, lockIds, statusOf, r[0]);
      assert false;
    }
  }

  /** Releasing twice: the second call submits nothing, since the first leaves no lock recorded. */
  method ReleaseTwice(trxEntity: Node, statusOf: Node -> int, lockIds: seq<string>)
    returns (first: seq<Node>, second: seq<Node>)
    requires trxEntity.Element?
    ensures first == ReleaseRequests(trxEntity, lockIds) && second == []
  {
    var fixture := new LockingFixture();
    var i := 0;
    while i < |lockIds|
      invariant 0 <= i <= |lockIds| && fixture.locks == lockIds[..i]
    {
      fixture.AddLock(lockIds[i]);
      assert lockIds[..i + 1] == lockIds[..i] + [lockIds[i]];
      i := i + 1;
    }
    assert lockIds[..i] == lockIds;
    var failed;
    first, failed := fixture.ReleaseAllLocks(trxEntity, statusOf);
    second, failed := fixture.ReleaseAllLocks(trxEntity, statusOf);
  }
}
