/**
  The `addEventListener` / `removeEventListener` overrides. The two
  synthetic event names create or remove a subscription to the mode-change
  event and record it in a per-element, per-kind binding map keyed by the
  callback's source text; every other event name reaches the native
  listener list untouched.
*/
module Listeners {
  import opened Wrappers
  import opened Dom
  import opened Events

  /** Stores `h` under `k`, creating the map on first use and overwriting an earlier entry. */
  function Bind(b: Bindings, k: Key, h: Handler): (r: map<Key, Handler>)
    ensures k in r && r[k] == h
    ensures forall k' :: k' != k ==> (k' in r <==> b.Some? && k' in b.value)
    ensures forall k' :: k' != k && k' in r ==> b.Some? && r[k'] == b.value[k']
  {
    match b
    case None => map[k := h]
    case Some(m) => m[k := h]
  }

  /** Native removal of a looked-up subscription; a missing entry (`undefined`) removes nothing. */
  function DetachBound(ls: seq<Listener>, m: map<Key, Handler>, k: Key): (r: seq<Listener>)
    ensures k in m ==> forall l :: l in r <==> l in ls && l != Listener(ModeChanged, m[k])
    ensures k !in m ==> r == ls
  {
    if k in m then Detach(ls, Listener(ModeChanged, m[k])) else ls
  }

  /** The element after a registration that received subscription id `id`. */
  function ListenElem(el: Element, name: string, cb: Callback, id: nat): (r: Element)
    ensures r.mode == el.mode && r.disabled == el.disabled && r.supportsPip == el.supportsPip
    ensures forall l :: l in el.listeners ==> l in r.listeners
    ensures name == EnterPip ==>
      && (forall l :: l in r.listeners <==> l in el.listeners || l == Listener(ModeChanged, EnterSub(id, cb)))
      && r.enterBindings == Some(Bind(el.enterBindings, KeyOf(cb), EnterSub(id, cb)))
      && r.leaveBindings == el.leaveBindings
      && r.prevMode == el.prevMode
    ensures name == LeavePip ==>
      && (forall l :: l in r.listeners <==> l in el.listeners || l == Listener(ModeChanged, LeaveSub(id, cb)))
      && r.leaveBindings == Some(Bind(el.leaveBindings, KeyOf(cb), LeaveSub(id, cb)))
      && r.enterBindings == el.enterBindings
      && r.prevMode == el.mode
    ensures name == EnterPip && Listener(ModeChanged, EnterSub(id, cb)) !in el.listeners ==>
      r.listeners == el.listeners + [Listener(ModeChanged, EnterSub(id, cb))]
    ensures name == LeavePip && Listener(ModeChanged, LeaveSub(id, cb)) !in el.listeners ==>
      r.listeners == el.listeners + [Listener(ModeChanged, LeaveSub(id, cb))]
    ensures name != EnterPip && name != LeavePip && Listener(name, Native(cb)) !in el.listeners ==>
      r.listeners == el.listeners + [Listener(name, Native(cb))]
    ensures name != EnterPip && name != LeavePip && Listener(name, Native(cb)) in el.listeners ==>
      r.listeners == el.listeners
    ensures name != EnterPip && name != LeavePip ==>
      && (forall l :: l in r.listeners <==> l in el.listeners || l == Listener(name, Native(cb)))
      && r.enterBindings == el.enterBindings
      && r.leaveBindings == el.leaveBindings
      && r.prevMode == el.prevMode
  {
    if name == EnterPip then
      var h := EnterSub(id, cb);
      el.(listeners := Attach(el.listeners, Listener(ModeChanged, h)),
          enterBindings := Some(Bind(el.enterBindings, KeyOf(cb), h)))
    else if name == LeavePip then
      var h := LeaveSub(id, cb);
      el.(listeners := Attach(el.listeners, Listener(ModeChanged, h)),
          prevMode := el.mode,
          leaveBindings := Some(Bind(el.leaveBindings, KeyOf(cb), h)))
    else
      el.(listeners := Attach(el.listeners, Listener(name, Native(cb))))
  }

  /**
    `addEventListener(name, cb)` on element `e`. A synthetic name attaches a
    fresh subscription and binds it under the callback's key, leaving any
    subscription bound earlier under that key attached; registering a leave
    callback also records the current mode as the previous mode. Any other
    name is handed to the native list.
  */
  function Listen(d: Doc, e: ElemId, name: string, cb: Callback): (r: Doc)
    requires HolderValid(d) && e < |d.elems|
    ensures |r.elems| == |d.elems| && r.holder == d.holder
    ensures r.elems[e] == ListenElem(d.elems[e], name, cb, d.nextSub)
    ensures forall i :: 0 <= i < |d.elems| && i != e ==> r.elems[i] == d.elems[i]
    ensures r.nextSub == if name == EnterPip || name == LeavePip then d.nextSub + 1 else d.nextSub
    ensures Inv(d) ==> Inv(r)
  {
    var r := WithElem(d, e, ListenElem(d.elems[e], name, cb, d.nextSub));
    var r' := if name == EnterPip || name == LeavePip then r.(nextSub := d.nextSub + 1) else r;
    ListenPreservesInv(d, e, name, cb, r');
    r'
  }

  /** A registration keeps an element's bookkeeping and does not touch the observer. */
  lemma ListenElemOk(el: Element, name: string, cb: Callback, id: nat)
    requires ElementOk(el, id)
    ensures var n := if name == EnterPip || name == LeavePip then id + 1 else id;
      ElementOk(ListenElem(el, name, cb, id), n)
    ensures ObserverListener in ListenElem(el, name, cb, id).listeners <==> ObserverListener in el.listeners
  {
    var l := if name == EnterPip then Listener(ModeChanged, EnterSub(id, cb))
             else if name == LeavePip then Listener(ModeChanged, LeaveSub(id, cb))
             else Listener(name, Native(cb));
    assert ListenElem(el, name, cb, id).listeners == Attach(el.listeners, l);
    assert l != ObserverListener;
  }

  lemma ListenPreservesInv(d: Doc, e: ElemId, name: string, cb: Callback, r: Doc)
    requires HolderValid(d) && e < |d.elems|
    requires |r.elems| == |d.elems| && r.holder == d.holder
    requires r.elems[e] == ListenElem(d.elems[e], name, cb, d.nextSub)
    requires forall i :: 0 <= i < |d.elems| && i != e ==> r.elems[i] == d.elems[i]
    requires r.nextSub == if name == EnterPip || name == LeavePip then d.nextSub + 1 else d.nextSub
    ensures Inv(d) ==> Inv(r)
  {
    if Inv(d) {
      forall i | 0 <= i < |r.elems|
        ensures ElementOk(r.elems[i], r.nextSub)
        ensures ObserverListener in r.elems[i].listeners <==> ObserverListener in d.elems[i].listeners
      {
        assert ElementOk(d.elems[i], d.nextSub);
        if i == e {
          ListenElemOk(d.elems[e], name, cb, d.nextSub);
        } else {
          ElementOkMono(d.elems[i], d.nextSub, r.nextSub);
        }
      }
    }
  }

  /** The element after a removal. */
  function UnlistenElem(el: Element, name: string, cb: Callback): (r: Element)
    ensures r.(listeners := el.listeners, enterBindings := el.enterBindings, leaveBindings := el.leaveBindings) == el
    ensures name == EnterPip && el.enterBindings.Some? ==>
      && r.listeners == DetachBound(el.listeners, el.enterBindings.value, KeyOf(cb))
      && r.enterBindings == Some(el.enterBindings.value - {KeyOf(cb)})
      && r.leaveBindings == el.leaveBindings
    ensures name == LeavePip && el.leaveBindings.Some? ==>
      && r.listeners == DetachBound(el.listeners, el.leaveBindings.value, KeyOf(cb))
      && r.leaveBindings == Some(el.leaveBindings.value - {KeyOf(cb)})
      && r.enterBindings == el.enterBindings
    ensures !(name == EnterPip && el.enterBindings.Some?) && !(name == LeavePip && el.leaveBindings.Some?) ==>
      && r.listeners == Detach(el.listeners, Listener(name, Native(cb)))
      && (forall l :: l in r.listeners <==> l in el.listeners && l != Listener(name, Native(cb)))
      && r.enterBindings == el.enterBindings
      && r.leaveBindings == el.leaveBindings
  {
    if name == EnterPip && el.enterBindings.Some? then
      var m := el.enterBindings.value;
      el.(listeners := DetachBound(el.listeners, m, KeyOf(cb)), enterBindings := Some(m - {KeyOf(cb)}))
    else if name == LeavePip && el.leaveBindings.Some? then
      var m := el.leaveBindings.value;
      el.(listeners := DetachBound(el.listeners, m, KeyOf(cb)), leaveBindings := Some(m - {KeyOf(cb)}))
    else
      el.(listeners := Detach(el.listeners, Listener(name, Native(cb))))
  }

  /**
    `removeEventListener(name, cb)` on element `e`. For a synthetic name
    whose binding map exists, the subscription bound under the callback's
    key, if any, is detached and the key deleted; a key never bound changes
    nothing. Every other case goes to the native list, which for a
    synthetic name holds nothing to remove.
  */
  function Unlisten(d: Doc, e: ElemId, name: string, cb: Callback): (r: Doc)
    requires HolderValid(d) && e < |d.elems|
    ensures |r.elems| == |d.elems| && r.holder == d.holder && r.nextSub == d.nextSub
    ensures r.elems[e] == UnlistenElem(d.elems[e], name, cb)
    ensures forall i :: 0 <= i < |d.elems| && i != e ==> r.elems[i] == d.elems[i]
    ensures Inv(d) ==> Inv(r)
  {
    var r := WithElem(d, e, UnlistenElem(d.elems[e], name, cb));
    UnlistenPreservesInv(d, e, name, cb, r);
    r
  }

  lemma UnlistenPreservesInv(d: Doc, e: ElemId, name: string, cb: Callback, r: Doc)
    requires HolderValid(d) && e < |d.elems|
    requires |r.elems| == |d.elems| && r.holder == d.holder && r.nextSub == d.nextSub
    requires r.elems[e] == UnlistenElem(d.elems[e], name, cb)
    requires forall i :: 0 <= i < |d.elems| && i != e ==> r.elems[i] == d.elems[i]
    ensures Inv(d) ==> Inv(r)
  {
    if Inv(d) {
      forall i | 0 <= i < |r.elems|
        ensures ElementOk(r.elems[i], r.nextSub)
        ensures ObserverListener in r.elems[i].listeners <==> r.holder == Some(i)
      {
        assert ElementOk(d.elems[i], d.nextSub);
        if i == e {
          var el := d.elems[e];
          var k := KeyOf(cb);
          if name == EnterPip && el.enterBindings.Some? {
            var m := el.enterBindings.value;
            if k in m {
              assert Listener(ModeChanged, m[k]) != ObserverListener;
            }
          } else if name == LeavePip && el.leaveBindings.Some? {
            var m := el.leaveBindings.value;
            if k in m {
              assert Listener(ModeChanged, m[k]) != ObserverListener;
            }
          } else {
            assert Listener(name, Native(cb)) != ObserverListener;
          }
        }
      }
    }
  }

  /**
    Removing a synthetic listener whose key is bound detaches exactly the
    bound subscription and deletes the key; no later delivery to the
    element invokes that subscription.
  */
  lemma UnlistenBound(d: Doc, e: ElemId, name: string, cb: Callback)
    requires Inv(d) && e < |d.elems|
    requires name == EnterPip || name == LeavePip
    requires var b := if name == EnterPip then d.elems[e].enterBindings else d.elems[e].leaveBindings;
      b.Some? && KeyOf(cb) in b.value
    ensures var b := if name == EnterPip then d.elems[e].enterBindings else d.elems[e].leaveBindings;
      var h := b.value[KeyOf(cb)];
      var r := Unlisten(d, e, name, cb);
      && Listener(ModeChanged, h) !in r.elems[e].listeners
      && (forall l :: l != Listener(ModeChanged, h) ==> (l in r.elems[e].listeners <==> l in d.elems[e].listeners))
      && (var b' := if name == EnterPip then r.elems[e].enterBindings else r.elems[e].leaveBindings;
          b' == Some(b.value - {KeyOf(cb)}))
      && h !in Deliver(r, e, ModeChanged).1
  {
    var b := if name == EnterPip then d.elems[e].enterBindings else d.elems[e].leaveBindings;
    var h := b.value[KeyOf(cb)];
    var r := Unlisten(d, e, name, cb);
    assert ElementOk(d.elems[e], d.nextSub);
    assert h.IsSub();
    DetachedNeverFires(r, e, ModeChanged, h);
  }

  /** Removing a synthetic listener that was never bound, or already removed, changes nothing. */
  lemma UnlistenUnboundIsNoop(d: Doc, e: ElemId, name: string, cb: Callback)
    requires Inv(d) && e < |d.elems|
    requires name == EnterPip || name == LeavePip
    requires var b := if name == EnterPip then d.elems[e].enterBindings else d.elems[e].leaveBindings;
      b.None? || KeyOf(cb) !in b.value
    ensures Unlisten(d, e, name, cb) == d
  {
    var el := d.elems[e];
    var r := Unlisten(d, e, name, cb);
    assert ElementOk(el, d.nextSub);
    var b := if name == EnterPip then el.enterBindings else el.leaveBindings;
    if b.Some? {
      assert b.value - {KeyOf(cb)} == b.value;
    } else {
      assert Listener(name, Native(cb)) !in el.listeners;
    }
    assert r.elems[e] == el;
    assert r.elems == d.elems;
  }

  /** A pass-through listener added and removed again leaves the document as it was. */
  lemma ListenUnlistenNative(d: Doc, e: ElemId, name: string, cb: Callback)
    requires HolderValid(d) && e < |d.elems|
    requires name != EnterPip && name != LeavePip
    requires Listener(name, Native(cb)) !in d.elems[e].listeners
    ensures Unlisten(Listen(d, e, name, cb), e, name, cb) == d
  {
    var l := Listener(name, Native(cb));
    var r := Unlisten(Listen(d, e, name, cb), e, name, cb);
    DetachAttach(d.elems[e].listeners, l);
    assert r.elems[e] == d.elems[e];
    assert r.elems == d.elems;
  }

  /**
    A synthetic listener added and removed again leaves the element's
    listener list exactly as it was and its key unbound.
  */
  lemma ListenUnlistenSynthetic(d: Doc, e: ElemId, name: string, cb: Callback)
    requires Inv(d) && e < |d.elems|
    requires name == EnterPip || name == LeavePip
    ensures var r := Unlisten(Listen(d, e, name, cb), e, name, cb);
      && r.elems[e].listeners == d.elems[e].listeners
      && (var b := if name == EnterPip then r.elems[e].enterBindings else r.elems[e].leaveBindings;
          b.Some? && KeyOf(cb) !in b.value)
  {
    var h := if name == EnterPip then EnterSub(d.nextSub, cb) else LeaveSub(d.nextSub, cb);
    var l := Listener(ModeChanged, h);
    assert ElementOk(d.elems[e], d.nextSub);
    assert l !in d.elems[e].listeners;
    DetachAttach(d.elems[e].listeners, l);
  }

  /**
    Registering the same callback twice and removing it once leaves the
    first subscription attached with its key unbound, so a delivery in
    picture-in-picture mode still invokes the callback.
  */
  lemma ReRegisterLeaks(d: Doc, e: ElemId, cb: Callback)
    requires HolderValid(d) && e < |d.elems|
    ensures var once := Listen(d, e, EnterPip, cb);
      var r := Unlisten(Listen(once, e, EnterPip, cb), e, EnterPip, cb);
      && Listener(ModeChanged, EnterSub(d.nextSub, cb)) in r.elems[e].listeners
      && r.elems[e].enterBindings.Some? && KeyOf(cb) !in r.elems[e].enterBindings.value
      && (r.elems[e].mode == PictureInPicture ==> EnterSub(d.nextSub, cb) in Deliver(r, e, ModeChanged).1)
  {
    var once := Listen(d, e, EnterPip, cb);
    var twice := Listen(once, e, EnterPip, cb);
    var r := Unlisten(twice, e, EnterPip, cb);
    ReRegisterElem(d.elems[e], cb, d.nextSub);
    assert r.elems[e].mode == d.elems[e].mode;
    EnterFiresIffPip(r, e, EnterSub(d.nextSub, cb));
  }

  lemma ReRegisterElem(el: Element, cb: Callback, id: nat)
    ensures var r := UnlistenElem(ListenElem(ListenElem(el, EnterPip, cb, id), EnterPip, cb, id + 1), EnterPip, cb);
      && Listener(ModeChanged, EnterSub(id, cb)) in r.listeners
      && r.enterBindings.Some? && KeyOf(cb) !in r.enterBindings.value
      && r.mode == el.mode
  {
    var twice := ListenElem(ListenElem(el, EnterPip, cb, id), EnterPip, cb, id + 1);
    assert twice.enterBindings.value[KeyOf(cb)] == EnterSub(id + 1, cb);
  }

  /**
    Two callbacks with the same source text share a key: removing the
    second one detaches the subscription of the first.
  */
  lemma KeyCollision(d: Doc, e: ElemId, cb1: Callback, cb2: Callback)
    requires HolderValid(d) && e < |d.elems|
    requires cb1 != cb2 && KeyOf(cb1) == KeyOf(cb2)
    ensures var r := Unlisten(Listen(d, e, EnterPip, cb1), e, EnterPip, cb2);
      Listener(ModeChanged, EnterSub(d.nextSub, cb1)) !in r.elems[e].listeners
  {
  }
}
