/**
 * The notification queue of `ToastProvider`: an ordered list of toasts that
 * `addToast` appends to and that a dismissal (`removeToast`) or the expiry
 * timer scheduled by `addToast` filters by id.
 */
module ToastContext {
  import opened Wrappers

  datatype ToastType = Success | Error | Info

  datatype Toast = Toast(id: nat, message: string, kind: ToastType)

  ghost predicate DistinctIds(ts: seq<Toast>) {
    forall i, j :: 0 <= i < j < |ts| ==> ts[i].id != ts[j].id
  }

  ghost predicate HasId(ts: seq<Toast>, id: nat) {
    exists i :: 0 <= i < |ts| && ts[i].id == id
  }

  /** `ts.filter((t) => t.id !== id)`. */
  function RemoveById(ts: seq<Toast>, id: nat): (r: seq<Toast>)
    ensures |r| <= |ts|
    ensures forall t :: t in r <==> t in ts && t.id != id
  {
    if ts == [] then []
    else if ts[0].id == id then RemoveById(ts[1..], id)
    else [ts[0]] + RemoveById(ts[1..], id)
  }

  /** `sub` is `ts` with some elements left out and the rest in their order. */
  ghost predicate IsSubsequence(sub: seq<Toast>, ts: seq<Toast>)
    decreases |ts|
  {
    if sub == [] then true
    else if ts == [] then false
    else if sub[0] == ts[0] then IsSubsequence(sub[1..], ts[1..])
    else IsSubsequence(sub, ts[1..])
  }

  /** Removal keeps the other toasts in their relative order. */
  lemma {:induction false} RemoveKeepsOrder(ts: seq<Toast>, id: nat)
    ensures IsSubsequence(RemoveById(ts, id), ts)
  {
    if ts != [] {
      RemoveKeepsOrder(ts[1..], id);
      var rest := RemoveById(ts[1..], id);
      if ts[0].id != id {
        assert ([ts[0]] + rest)[1..] == rest;
      }
    }
  }

  /** Removing an id that no toast carries changes nothing. */
  lemma {:induction false} RemoveAbsent(ts: seq<Toast>, id: nat)
    requires !HasId(ts, id)
    ensures RemoveById(ts, id) == ts
  {
    if ts != [] {
      RemoveAbsent(ts[1..], id);
      assert ts == [ts[0]] + ts[1..];
    }
  }

  /** After a removal the id is gone, so a second removal of it (the expiry
      timer firing after a manual dismissal) is a no-op. */
  lemma RemoveIdempotent(ts: seq<Toast>, id: nat)
    ensures !HasId(RemoveById(ts, id), id)
    ensures RemoveById(RemoveById(ts, id), id) == RemoveById(ts, id)
  {
    var r := RemoveById(ts, id);
    RemoveAbsent(r, id);
  }

  /** Dismissals and expiries of two toasts may happen in either order. */
  lemma {:induction false} RemoveCommutes(ts: seq<Toast>, a: nat, b: nat)
    ensures RemoveById(RemoveById(ts, a), b) == RemoveById(RemoveById(ts, b), a)
  {
    if ts != [] {
      RemoveCommutes(ts[1..], a, b);
    }
  }

  /** Removing from a list with distinct ids takes away at most one toast,
      and exactly one when the id is present. */
  lemma {:induction false} RemoveDistinctCount(ts: seq<Toast>, id: nat)
    requires DistinctIds(ts)
    ensures |RemoveById(ts, id)| == if HasId(ts, id) then |ts| - 1 else |ts|
  {
    if ts == [] {
    } else {
      assert DistinctIds(ts[1..]) by {
        forall i, j | 0 <= i < j < |ts[1..]| ensures ts[1..][i].id != ts[1..][j].id {
          assert ts[i + 1].id != ts[j + 1].id;
        }
      }
      RemoveDistinctCount(ts[1..], id);
      if ts[0].id == id {
        assert HasId(ts, id);
      } else {
        assert HasId(ts, id) <==> HasId(ts[1..], id) by {
          if HasId(ts, id) {
            var i :| 0 <= i < |ts| && ts[i].id == id;
            assert i > 0 && ts[1..][i - 1].id == id;
          }
          if HasId(ts[1..], id) {
            var i :| 0 <= i < |ts[1..]| && ts[1..][i].id == id;
            assert ts[i + 1].id == id;
          }
        }
      }
    }
  }

  /**
   * The provider's state. Ids come from a counter, so each toast gets an id
   * that no earlier toast had; `pending` holds the ids whose expiry timer has
   * been scheduled and has not fired yet.
   */
  class ToastProvider {
    var toasts: seq<Toast>
    var nextId: nat
    var pending: set<nat>

    /** Ids are distinct, every visible toast still has its expiry timer
        pending, and every id handed out is below the counter. */
    ghost predicate Valid()
      reads this
    {
      && DistinctIds(toasts)
      && (forall i :: 0 <= i < |toasts| ==> toasts[i].id in pending)
      && (forall id :: id in pending ==> id < nextId)
    }

    constructor ()
      ensures Valid()
      ensures toasts == [] && pending == {}
    {
      toasts := [];
      nextId := 0;
      pending := {};
    }

    /** `addToast({message, type})`: one toast appended at the end with a
        fresh id, and its expiry timer scheduled. */
    method AddToast(message: string, kind: ToastType := Info) returns (id: nat)
      requires Valid()
      modifies this
      ensures Valid()
      ensures id == old(nextId) && !HasId(old(toasts), id)
      ensures toasts == old(toasts) + [Toast(id, message, kind)]
      ensures pending == old(pending) + {id}
      ensures nextId == old(nextId) + 1
    {
      id := nextId;
      toasts := toasts + [Toast(id, message, kind)];
      pending := pending + {id};
      nextId := nextId + 1;
    }

    /** `removeToast(id)`, as the close button calls it. The expiry timer is
        not cancelled. */
    method RemoveToast(id: nat)
      requires Valid()
      modifies this
      ensures Valid()
      ensures toasts == RemoveById(old(toasts), id)
      ensures pending == old(pending) && nextId == old(nextId)
    {
      ghost var before := toasts;
      toasts := RemoveById(toasts, id);
      RemoveKeepsDistinct(before, id);
    }

    /** The expiry timer of toast `id` fires: the same filter as `RemoveToast`,
        and the timer is no longer pending. */
    method Expire(id: nat)
      requires Valid()
      requires id in pending
      modifies this
      ensures Valid()
      ensures toasts == RemoveById(old(toasts), id)
      ensures pending == old(pending) - {id} && nextId == old(nextId)
    {
      ghost var before := toasts;
      toasts := RemoveById(toasts, id);
      RemoveKeepsDistinct(before, id);
      pending := pending - {id};
    }
  }

  lemma RemoveKeepsDistinct(ts: seq<Toast>, id: nat)
    requires DistinctIds(ts)
    ensures DistinctIds(RemoveById(ts, id))
  {
    RemoveKeepsOrder(ts, id);
    SubsequenceKeepsDistinct(RemoveById(ts, id), ts);
  }

  lemma {:induction false} SubsequenceKeepsDistinct(sub: seq<Toast>, ts: seq<Toast>)
    requires IsSubsequence(sub, ts) && DistinctIds(ts)
    ensures DistinctIds(sub)
    decreases |ts|
  {
    if sub != [] && ts != [] {
      assert DistinctIds(ts[1..]) by {
        forall i, j | 0 <= i < j < |ts[1..]| ensures ts[1..][i].id != ts[1..][j].id {
          assert ts[i + 1].id != ts[j + 1].id;
        }
      }
      if sub[0] == ts[0] {
        SubsequenceKeepsDistinct(sub[1..], ts[1..]);
        SubsequenceMembers(sub[1..], ts[1..]);
        forall j | 0 < j < |sub| ensures sub[0].id != sub[j].id {
          assert sub[1..][j - 1] in ts[1..];
          var k :| 0 <= k < |ts[1..]| && ts[1..][k] == sub[j];
          assert ts[0].id != ts[k + 1].id;
        }
      } else {
        SubsequenceKeepsDistinct(sub, ts[1..]);
      }
    }
  }

  lemma {:induction false} SubsequenceMembers(sub: seq<Toast>, ts: seq<Toast>)
    requires IsSubsequence(sub, ts)
    ensures forall t :: t in sub ==> t in ts
    decreases |ts|
  {
    if sub != [] && ts != [] {
      if sub[0] == ts[0] {
        SubsequenceMembers(sub[1..], ts[1..]);
        assert sub == [sub[0]] + sub[1..];
      } else {
        SubsequenceMembers(sub, ts[1..]);
      }
    }
  }

  /** `useToast()`: the context value, or the error it throws outside a
      provider. */
  function UseToast<C>(context: Option<C>): (r: Result<C, string>)
    ensures r.Failure? <==> context.None?
    ensures r.Success? ==> r.value == context.value
    ensures r.Failure? ==> r.error == "useToast must be used within ToastProvider"
  {
    match context
    case None => Failure("useToast must be used within ToastProvider")
    case Some(c) => Result.Success(c)
  }
}
