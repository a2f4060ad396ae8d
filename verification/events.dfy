/**
  The event translator: `enterpictureinpicture` and `leavepictureinpicture`
  are built on subscriptions to `webkitpresentationmodechanged`; every
  other event name goes to the native listener list unchanged. A delivery
  of an event to an element runs a snapshot of the element's listeners for
  that name, in attachment order, and reports the subscriptions that
  invoked their caller's callback.
*/
module Events {
  import opened Wrappers
  import opened Dom
  import opened Register

  /** An enter subscription on a mode change: the callback fires when the mode is picture-in-picture. */
  function RunEnter(d: Doc, e: ElemId, h: Handler): (fired: seq<Handler>)
    requires e < |d.elems|
    ensures fired == [] || fired == [h]
    ensures fired == [h] <==> d.elems[e].mode == PictureInPicture
  {
    if d.elems[e].mode == PictureInPicture then [h] else []
  }

  /**
    A leave subscription on a mode change. In inline mode the callback
    fires when the element's recorded previous mode was picture-in-picture;
    in any other mode, unset and fullscreen included, the element becomes
    the register's holder. Either way the current mode is recorded as the
    element's previous mode, shared by all its leave subscriptions.
  */
  function RunLeave(d: Doc, e: ElemId, h: Handler): (r: (Doc, seq<Handler>))
    requires HolderValid(d) && e < |d.elems|
    ensures HolderValid(r.0) && FieldsUnchanged(d, r.0) && SubsUnchanged(d, r.0)
    ensures OthersInOrder(d, r.0)
    ensures r.1 == [] || r.1 == [h]
    ensures r.1 == [h] <==> d.elems[e].mode == Inline && d.elems[e].prevMode == PictureInPicture
    ensures r.0.elems[e].prevMode == d.elems[e].mode
    ensures forall i :: 0 <= i < |d.elems| && i != e ==> r.0.elems[i].prevMode == d.elems[i].prevMode
    ensures d.elems[e].mode == Inline ==> r.0.holder == d.holder
    ensures d.elems[e].mode != Inline ==> r.0.holder == Some(e)
    ensures Inv(d) ==> Inv(r.0)
  {
    var m := d.elems[e].mode;
    var fired := if m == Inline && d.elems[e].prevMode == PictureInPicture then [h] else [];
    var tracked := Track(d, e);
    var recorded := Record(tracked, e, m);
    FrameTrans(d, tracked, recorded);
    OrderTrans(d, tracked, recorded);
    (recorded, fired)
  }

  /** Records `m` as element `e`'s previous mode; nothing else changes. */
  function Record(d: Doc, e: ElemId, m: Mode): (r: Doc)
    requires HolderValid(d) && e < |d.elems|
    ensures |r.elems| == |d.elems| && r.holder == d.holder && r.nextSub == d.nextSub
    ensures r.elems[e] == d.elems[e].(prevMode := m)
    ensures forall i :: 0 <= i < |d.elems| && i != e ==> r.elems[i] == d.elems[i]
    ensures FieldsUnchanged(d, r) && SubsUnchanged(d, r) && OthersInOrder(d, r)
    ensures Inv(d) ==> Inv(r)
  {
    ReplaceFrame(d, e, d.elems[e].(prevMode := m));
    WithElem(d, e, d.elems[e].(prevMode := m))
  }

  /** The register update a leave subscription makes: any mode but inline makes `e` the holder. */
  function Track(d: Doc, e: ElemId): (r: Doc)
    requires HolderValid(d) && e < |d.elems|
    ensures HolderValid(r) && FieldsUnchanged(d, r) && SubsUnchanged(d, r)
    ensures OthersInOrder(d, r)
    ensures forall i :: 0 <= i < |d.elems| ==> r.elems[i].prevMode == d.elems[i].prevMode
    ensures d.elems[e].mode == Inline ==> r == d
    ensures d.elems[e].mode != Inline ==> r.holder == Some(e)
    ensures Inv(d) ==> Inv(r)
  {
    SetPreservesInv(d, Some(e));
    if d.elems[e].mode == Inline then d else Set(d, Some(e))
  }

  /** One low-level listener of element `e` running. */
  function Handle(d: Doc, e: ElemId, h: Handler): (r: (Doc, seq<Handler>))
    requires HolderValid(d) && e < |d.elems|
    ensures HolderValid(r.0) && FieldsUnchanged(d, r.0) && SubsUnchanged(d, r.0)
    ensures r.1 == [] || r.1 == [h]
    ensures forall i :: 0 <= i < |d.elems| && i != e ==> r.0.elems[i].prevMode == d.elems[i].prevMode
    ensures !h.LeaveSub? ==> r.0.elems[e].prevMode == d.elems[e].prevMode
    ensures Inv(d) ==> Inv(r.0)
  {
    match h
    case RegisterObserver => (Observe(d, e), [])
    case EnterSub(_, _) => (d, RunEnter(d, e, h))
    case LeaveSub(_, _) => RunLeave(d, e, h)
    case Native(_) => (d, [h])
  }

  /**
    Runs a snapshot of handlers for event `name` on element `e`; a handler
    detached by an earlier one before its turn does not run.
  */
  function RunSnapshot(d: Doc, e: ElemId, name: string, snap: seq<Handler>): (r: (Doc, seq<Handler>))
    requires HolderValid(d) && e < |d.elems|
    ensures HolderValid(r.0) && FieldsUnchanged(d, r.0) && SubsUnchanged(d, r.0)
    ensures forall i :: 0 <= i < |d.elems| && i != e ==> r.0.elems[i].prevMode == d.elems[i].prevMode
    ensures forall h :: h in r.1 ==>
      h in snap && !h.RegisterObserver? && Listener(name, h) in d.elems[e].listeners
    ensures Inv(d) ==> Inv(r.0)
    decreases |snap|
  {
    if snap == [] then (d, [])
    else
      var h := snap[0];
      if Listener(name, h) in d.elems[e].listeners then
        var step := Handle(d, e, h);
        var rest := RunSnapshot(step.0, e, name, snap[1..]);
        FrameTrans(d, step.0, rest.0);
        (rest.0, step.1 + rest.1)
      else
        RunSnapshot(d, e, name, snap[1..])
  }

  /** The handlers attached for `name`, in attachment order. */
  function Snapshot(ls: seq<Listener>, name: string): (snap: seq<Handler>)
    ensures forall h :: h in snap <==> Listener(name, h) in ls
  {
    if ls == [] then []
    else
      var rest := Snapshot(ls[1..], name);
      assert forall l :: l in ls <==> l == ls[0] || l in ls[1..];
      if ls[0].event == name then [ls[0].handler] + rest else rest
  }

  /** Delivery of event `name` to element `e`: the document afterwards and the subscriptions that fired. */
  function Deliver(d: Doc, e: ElemId, name: string): (r: (Doc, seq<Handler>))
    requires HolderValid(d) && e < |d.elems|
    ensures HolderValid(r.0) && FieldsUnchanged(d, r.0) && SubsUnchanged(d, r.0)
    ensures forall h :: h in r.1 ==> !h.RegisterObserver? && Listener(name, h) in d.elems[e].listeners
    ensures Inv(d) ==> Inv(r.0)
  {
    RunSnapshot(d, e, name, Snapshot(d.elems[e].listeners, name))
  }

  /** No listener running reorders the element's listeners other than the register's observer. */
  lemma HandleOrder(d: Doc, e: ElemId, h: Handler)
    requires HolderValid(d) && e < |d.elems|
    ensures OthersInOrder(d, Handle(d, e, h).0)
  {
  }

  /** Running a snapshot keeps every element's other listeners in the same order. */
  lemma {:induction false} RunSnapshotOrder(d: Doc, e: ElemId, name: string, snap: seq<Handler>)
    requires HolderValid(d) && e < |d.elems|
    ensures OthersInOrder(d, RunSnapshot(d, e, name, snap).0)
    decreases |snap|
  {
    if snap == [] {
    } else if Listener(name, snap[0]) in d.elems[e].listeners {
      var step := Handle(d, e, snap[0]);
      HandleOrder(d, e, snap[0]);
      RunSnapshotOrder(step.0, e, name, snap[1..]);
      OrderTrans(d, step.0, RunSnapshot(step.0, e, name, snap[1..]).0);
    } else {
      RunSnapshotOrder(d, e, name, snap[1..]);
    }
  }

  /**
    A delivery keeps every element's listeners other than the register's
    observer as the same list in the same order: only the observer may move.
  */
  lemma DeliverOrder(d: Doc, e: ElemId, name: string)
    requires HolderValid(d) && e < |d.elems|
    ensures OthersInOrder(d, Deliver(d, e, name).0)
  {
    RunSnapshotOrder(d, e, name, Snapshot(d.elems[e].listeners, name));
  }

  // ----- enter subscriptions -----

  lemma {:induction false} EnterRun(d: Doc, e: ElemId, name: string, snap: seq<Handler>)
    requires HolderValid(d) && e < |d.elems|
    ensures forall h: Handler :: h.EnterSub? ==>
      (h in RunSnapshot(d, e, name, snap).1 <==>
        h in snap && Listener(name, h) in d.elems[e].listeners && d.elems[e].mode == PictureInPicture)
    decreases |snap|
  {
    if snap != [] {
      var h0 := snap[0];
      assert forall h :: h in snap <==> h == h0 || h in snap[1..];
      if Listener(name, h0) in d.elems[e].listeners {
        var step := Handle(d, e, h0);
        EnterRun(step.0, e, name, snap[1..]);
        forall h: Handler | h.EnterSub?
          ensures Listener(name, h) in step.0.elems[e].listeners <==> Listener(name, h) in d.elems[e].listeners
        {
          assert Listener(name, h) != ObserverListener;
        }
      } else {
        EnterRun(d, e, name, snap[1..]);
      }
    }
  }

  /**
    On a delivery of the mode change, an enter subscription fires exactly
    when it is attached and the element's mode is picture-in-picture; in
    particular never on a change to inline.
  */
  lemma EnterFiresIffPip(d: Doc, e: ElemId, h: Handler)
    requires HolderValid(d) && e < |d.elems|
    requires h.EnterSub?
    ensures h in Deliver(d, e, ModeChanged).1 <==>
      Listener(ModeChanged, h) in d.elems[e].listeners && d.elems[e].mode == PictureInPicture
  {
    EnterRun(d, e, ModeChanged, Snapshot(d.elems[e].listeners, ModeChanged));
  }

  // ----- leave subscriptions -----

  /** The first leave subscription of the snapshot still attached for `name` in `ls`. */
  function FirstLeave(snap: seq<Handler>, name: string, ls: seq<Listener>): (r: Option<Handler>)
    ensures r.Some? ==> r.value.LeaveSub? && r.value in snap && Listener(name, r.value) in ls
    ensures r.None? <==> forall h :: h in snap && h.LeaveSub? ==> Listener(name, h) !in ls
  {
    if snap == [] then None
    else if snap[0].LeaveSub? && Listener(name, snap[0]) in ls then Some(snap[0])
    else
      assert forall h :: h in snap <==> h == snap[0] || h in snap[1..];
      FirstLeave(snap[1..], name, ls)
  }

  /** The snapshot of a concatenation is the concatenation of the snapshots. */
  lemma {:induction false} SnapshotAppend(a: seq<Listener>, b: seq<Listener>, name: string)
    ensures Snapshot(a + b, name) == Snapshot(a, name) + Snapshot(b, name)
  {
    if a == [] {
      assert a + b == b;
    } else {
      assert (a + b)[0] == a[0] && (a + b)[1..] == a[1..] + b;
      SnapshotAppend(a[1..], b, name);
    }
  }

  /** The first attached leave subscription of a concatenation comes from its first part when there is one. */
  lemma {:induction false} FirstLeaveAppend(s1: seq<Handler>, s2: seq<Handler>, name: string, ls: seq<Listener>)
    ensures FirstLeave(s1 + s2, name, ls) ==
      if FirstLeave(s1, name, ls).Some? then FirstLeave(s1, name, ls) else FirstLeave(s2, name, ls)
  {
    if s1 == [] {
      assert s1 + s2 == s2;
    } else {
      assert (s1 + s2)[0] == s1[0] && (s1 + s2)[1..] == s1[1..] + s2;
      FirstLeaveAppend(s1[1..], s2, name, ls);
    }
  }

  lemma {:induction false} FirstLeaveSame(snap: seq<Handler>, name: string, a: seq<Listener>, b: seq<Listener>)
    requires forall h: Handler :: h.LeaveSub? ==> (Listener(name, h) in a <==> Listener(name, h) in b)
    ensures FirstLeave(snap, name, a) == FirstLeave(snap, name, b)
  {
    if snap != [] {
      FirstLeaveSame(snap[1..], name, a, b);
    }
  }

  /** Handling one listener keeps leave subscriptions attached as they were. */
  lemma LeaveMembershipKept(d: Doc, d': Doc, e: ElemId, name: string)
    requires e < |d.elems| && |d'.elems| == |d.elems| && SubsUnchanged(d, d')
    ensures forall h: Handler :: h.LeaveSub? ==>
      (Listener(name, h) in d'.elems[e].listeners <==> Listener(name, h) in d.elems[e].listeners)
  {
    forall h: Handler | h.LeaveSub?
      ensures Listener(name, h) in d'.elems[e].listeners <==> Listener(name, h) in d.elems[e].listeners
    {
      assert Listener(name, h) != ObserverListener;
    }
  }

  lemma {:induction false} LeaveRunInline(d: Doc, e: ElemId, name: string, snap: seq<Handler>)
    requires HolderValid(d) && e < |d.elems|
    requires d.elems[e].mode == Inline
    ensures forall h: Handler :: h.LeaveSub? ==>
      (h in RunSnapshot(d, e, name, snap).1 <==>
        d.elems[e].prevMode == PictureInPicture && FirstLeave(snap, name, d.elems[e].listeners) == Some(h))
    ensures FirstLeave(snap, name, d.elems[e].listeners).Some? ==>
      RunSnapshot(d, e, name, snap).0.elems[e].prevMode == Inline
    ensures FirstLeave(snap, name, d.elems[e].listeners).None? ==>
      RunSnapshot(d, e, name, snap).0.elems[e].prevMode == d.elems[e].prevMode
    decreases |snap|
  {
    if snap != [] {
      var h0 := snap[0];
      var ls := d.elems[e].listeners;
      if Listener(name, h0) in ls {
        var step := Handle(d, e, h0);
        LeaveRunInline(step.0, e, name, snap[1..]);
        LeaveMembershipKept(d, step.0, e, name);
        FirstLeaveSame(snap[1..], name, ls, step.0.elems[e].listeners);
        if h0.LeaveSub? {
          assert step.0.elems[e].prevMode == Inline;
        }
      } else {
        LeaveRunInline(d, e, name, snap[1..]);
      }
    }
  }

  lemma {:induction false} LeaveRunNotInline(d: Doc, e: ElemId, name: string, snap: seq<Handler>)
    requires HolderValid(d) && e < |d.elems|
    requires d.elems[e].mode != Inline
    ensures forall h: Handler :: h.LeaveSub? ==> h !in RunSnapshot(d, e, name, snap).1
    ensures FirstLeave(snap, name, d.elems[e].listeners).Some? ==>
      RunSnapshot(d, e, name, snap).0.elems[e].prevMode == d.elems[e].mode
    ensures FirstLeave(snap, name, d.elems[e].listeners).None? ==>
      RunSnapshot(d, e, name, snap).0.elems[e].prevMode == d.elems[e].prevMode
    ensures d.elems[e].mode == PictureInPicture ==>
      RunSnapshot(d, e, name, snap).0.holder ==
        if d.holder == Some(e) || FirstLeave(snap, name, d.elems[e].listeners).Some? then Some(e) else d.holder
    decreases |snap|
  {
    if snap != [] {
      var h0 := snap[0];
      var ls := d.elems[e].listeners;
      if Listener(name, h0) in ls {
        var step := Handle(d, e, h0);
        LeaveRunNotInline(step.0, e, name, snap[1..]);
        LeaveMembershipKept(d, step.0, e, name);
        FirstLeaveSame(snap[1..], name, ls, step.0.elems[e].listeners);
        if d.elems[e].mode == PictureInPicture && h0.RegisterObserver? {
          assert step.0 == d;
        }
      } else {
        LeaveRunNotInline(d, e, name, snap[1..]);
      }
    }
  }

  /**
    On a delivery of the mode change in inline mode, only the first leave
    subscription attached fires, and only when the element's recorded
    previous mode was picture-in-picture; the later ones see the mode the
    first one recorded.
  */
  lemma LeaveOnInline(d: Doc, e: ElemId, h: Handler)
    requires HolderValid(d) && e < |d.elems|
    requires h.LeaveSub? && d.elems[e].mode == Inline
    ensures var ls := d.elems[e].listeners;
      h in Deliver(d, e, ModeChanged).1 <==>
        d.elems[e].prevMode == PictureInPicture
        && FirstLeave(Snapshot(ls, ModeChanged), ModeChanged, ls) == Some(h)
    ensures Listener(ModeChanged, h) in d.elems[e].listeners ==>
      Deliver(d, e, ModeChanged).0.elems[e].prevMode == Inline
  {
    LeaveRunInline(d, e, ModeChanged, Snapshot(d.elems[e].listeners, ModeChanged));
  }

  /**
    On a delivery of the mode change in picture-in-picture mode, no leave
    subscription fires; when one is attached, the element becomes the
    register's holder and its previous mode becomes picture-in-picture.
  */
  lemma LeaveOnPipEntry(d: Doc, e: ElemId)
    requires HolderValid(d) && e < |d.elems|
    requires d.elems[e].mode == PictureInPicture
    ensures forall h: Handler :: h.LeaveSub? ==> h !in Deliver(d, e, ModeChanged).1
    ensures (exists h: Handler :: h.LeaveSub? && Listener(ModeChanged, h) in d.elems[e].listeners) ==>
      Deliver(d, e, ModeChanged).0.holder == Some(e) &&
      Deliver(d, e, ModeChanged).0.elems[e].prevMode == PictureInPicture
    ensures d.holder == Some(e) ==> Deliver(d, e, ModeChanged).0.holder == Some(e)
  {
    var snap := Snapshot(d.elems[e].listeners, ModeChanged);
    LeaveRunNotInline(d, e, ModeChanged, snap);
  }

  // ----- the register's observer -----

  lemma {:induction false} ObserverRun(d: Doc, e: ElemId, snap: seq<Handler>)
    requires Inv(d) && e < |d.elems|
    requires d.elems[e].mode != Empty && d.elems[e].mode != PictureInPicture
    requires d.elems[e].mode == Inline || FirstLeave(snap, ModeChanged, d.elems[e].listeners).None?
    requires d.holder == None || (d.holder == Some(e) && RegisterObserver in snap)
    ensures RunSnapshot(d, e, ModeChanged, snap).0.holder == None
    decreases |snap|
  {
    if snap != [] {
      var h0 := snap[0];
      var ls := d.elems[e].listeners;
      assert forall h :: h in snap <==> h == h0 || h in snap[1..];
      if Listener(ModeChanged, h0) in ls {
        var step := Handle(d, e, h0);
        LeaveMembershipKept(d, step.0, e, ModeChanged);
        FirstLeaveSame(snap[1..], ModeChanged, ls, step.0.elems[e].listeners);
        ObserverRun(step.0, e, snap[1..]);
      } else {
        ObserverRun(d, e, snap[1..]);
      }
    }
  }

  /**
    When the held element's mode is set to something other than
    picture-in-picture, delivering the change clears the register, provided
    the mode is inline or no leave subscription on the element sets the
    register back.
  */
  lemma ObserverClears(d: Doc, e: ElemId)
    requires Inv(d) && e < |d.elems|
    requires d.holder == Some(e)
    requires d.elems[e].mode != Empty && d.elems[e].mode != PictureInPicture
    requires d.elems[e].mode == Inline ||
      forall h: Handler :: h.LeaveSub? ==> Listener(ModeChanged, h) !in d.elems[e].listeners
    ensures Deliver(d, e, ModeChanged).0.holder == None
  {
    var snap := Snapshot(d.elems[e].listeners, ModeChanged);
    assert RegisterObserver in snap;
    ObserverRun(d, e, snap);
  }

  /** A delivery in inline mode to an element while the register is empty leaves it empty. */
  lemma InlineKeepsEmpty(d: Doc, e: ElemId)
    requires Inv(d) && e < |d.elems|
    requires d.holder == None && d.elems[e].mode == Inline
    ensures Deliver(d, e, ModeChanged).0.holder == None
  {
    ObserverRun(d, e, Snapshot(d.elems[e].listeners, ModeChanged));
  }

  /** A subscription that is not attached to an element never fires on a delivery to it. */
  lemma DetachedNeverFires(d: Doc, e: ElemId, name: string, h: Handler)
    requires Inv(d) && e < |d.elems|
    requires h.IsSub() && Listener(ModeChanged, h) !in d.elems[e].listeners
    ensures h !in Deliver(d, e, name).1
  {
    assert ElementOk(d.elems[e], d.nextSub);
  }
}
