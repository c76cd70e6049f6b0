/** The WebSocket event feed (api/events.kt): the list of connected listeners and the
    broadcast of registry events to them. */
module EventApi {
  import opened Entities
  import opened ModuleViews

  /** A connected client (`WsContext`), by identity. */
  type Listener = nat

  /** `Event`: a created or deleted module, or a created release. */
  datatype Event =
    | ModuleCreated(module_: ModuleView)
    | ModuleDeleted(module_: ModuleView)
    | ReleaseCreated(release: Release)

  /** The `type` tag each event carries. */
  function TypeTag(e: Event): (tag: string)
    ensures e.ModuleCreated? ==> tag == "module_created"
    ensures e.ModuleDeleted? ==> tag == "module_deleted"
    ensures e.ReleaseCreated? ==> tag == "release_created"
  {
    match e
    case ModuleCreated(_) => "module_created"
    case ModuleDeleted(_) => "module_deleted"
    case ReleaseCreated(_) => "release_created"
  }

  /** Events of different kinds carry different tags, so a client can tell them apart. */
  lemma TagsTellKindsApart(a: Event, b: Event)
    ensures TypeTag(a) == TypeTag(b) <==>
      (a.ModuleCreated? && b.ModuleCreated?) || (a.ModuleDeleted? && b.ModuleDeleted?) || (a.ReleaseCreated? && b.ReleaseCreated?)
  {
    assert "module_created"[7] != "module_deleted"[7];
  }

  /** The comparison is `size > 100`, so a connect is still accepted at 100 listeners. */
  const MAX_LISTENERS: nat := 100

  /** One message sent to one listener. */
  datatype Delivery = Delivery(to: Listener, event: Event)

  /** `remove(ctx)`: drop the first occurrence, if there is one. */
  function RemoveFirst(ls: seq<Listener>, l: Listener): (r: seq<Listener>)
    ensures l !in ls ==> r == ls
    ensures l in ls ==> |r| == |ls| - 1 && multiset(r) == multiset(ls) - multiset{l}
  {
    if ls == [] then []
    else
      assert ls == [ls[0]] + ls[1..];
      if ls[0] == l then ls[1..]
      else [ls[0]] + RemoveFirst(ls[1..], l)
  }

  /** `removeIf { !it.session.isOpen }`: the open listeners, in their order. */
  function OpenOnes(ls: seq<Listener>, open: set<Listener>): (r: seq<Listener>)
    ensures forall l :: l in r <==> l in ls && l in open
    ensures |r| <= |ls|
  {
    if ls == [] then []
    else (if ls[0] in open then [ls[0]] else []) + OpenOnes(ls[1..], open)
  }

  /** Keeping the open listeners keeps their order: what remains is a subsequence. */
  lemma {:induction false} OpenOnesSnoc(ls: seq<Listener>, l: Listener, open: set<Listener>)
    ensures OpenOnes(ls + [l], open) == OpenOnes(ls, open) + (if l in open then [l] else [])
  {
    var t := ls + [l];
    if ls == [] {
      assert t == [l] && t[1..] == [];
    } else {
      assert t[0] == ls[0] && t[1..] == ls[1..] + [l];
      OpenOnesSnoc(ls[1..], l, open);
      assert OpenOnes(t, open) == (if ls[0] in open then [ls[0]] else []) + OpenOnes(t[1..], open);
    }
  }

  /** When every listener is open nothing is removed. */
  lemma {:induction false} AllOpenKept(ls: seq<Listener>, open: set<Listener>)
    requires forall i :: 0 <= i < |ls| ==> ls[i] in open
    ensures OpenOnes(ls, open) == ls
  {
    if ls != [] {
      AllOpenKept(ls[1..], open);
    }
  }

  /** `listeners.removeIf { !it.session.isOpen }`, element by element. */
  method RemoveClosed(ls: seq<Listener>, open: set<Listener>) returns (kept: seq<Listener>)
    ensures kept == OpenOnes(ls, open)
  {
    kept := [];
    var i := 0;
    while i < |ls|
      invariant 0 <= i <= |ls|
      invariant kept == OpenOnes(ls[..i], open)
    {
      OpenOnesSnoc(ls[..i], ls[i], open);
      assert ls[..i + 1] == ls[..i] + [ls[i]];
      if ls[i] in open {
        kept := kept + [ls[i]];
      }
      i := i + 1;
    }
    assert ls[..i] == ls;
  }

  /** `listeners.forEach { ctx -> ctx.send(message) }`: one delivery per listener, in order. */
  method Broadcast(ls: seq<Listener>, message: Event) returns (sent: seq<Delivery>)
    ensures |sent| == |ls| && forall i :: 0 <= i < |ls| ==> sent[i] == Delivery(ls[i], message)
  {
    sent := [];
    for j := 0 to |ls|
      invariant |sent| == j
      invariant forall k :: 0 <= k < j ==> sent[k] == Delivery(ls[k], message)
    {
      sent := sent + [Delivery(ls[j], message)];
    }
  }

  /** `EventHandler`: the listener list. */
  class EventHandler {
    var listeners: seq<Listener>

    /** At most one listener past the limit is ever held. */
    ghost predicate Valid()
      reads this
    {
      |listeners| <= MAX_LISTENERS + 1
    }

    constructor()
      ensures Valid() && listeners == []
    {
      listeners := [];
    }

    /** `onConnect`: refused (the session is closed with 503) when more than 100 listeners
        are held; otherwise the listener is appended. */
    method Connect(ctx: Listener) returns (accepted: bool)
      requires Valid()
      modifies this
      ensures Valid()
      ensures accepted <==> |old(listeners)| <= MAX_LISTENERS
      ensures accepted ==> listeners == old(listeners) + [ctx]
      ensures !accepted ==> listeners == old(listeners)
    {
      if |listeners| > MAX_LISTENERS {
        return false;
      }
      listeners := listeners + [ctx];
      return true;
    }

    /** `onClose`: `listeners.remove(ctx)`. */
    method Close(ctx: Listener)
      requires Valid()
      modifies this
      ensures Valid()
      ensures listeners == RemoveFirst(old(listeners), ctx)
    {
      listeners := RemoveFirst(listeners, ctx);
    }

    /** `postEvent`: drop every listener whose session is closed (`open` is the set of open
        sessions at that moment), then send the event to each remaining listener, in order. */
    method PostEvent(message: Event, open: set<Listener>) returns (sent: seq<Delivery>)
      requires Valid()
      modifies this
      ensures Valid()
      ensures listeners == OpenOnes(old(listeners), open)
      ensures |sent| == |listeners| && forall i :: 0 <= i < |sent| ==> sent[i] == Delivery(listeners[i], message)
    {
      var kept := RemoveClosed(listeners, open);
      listeners := kept;
      sent := Broadcast(kept, message);
    }
  }
}
