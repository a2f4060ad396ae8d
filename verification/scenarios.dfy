/**
  End-to-end runs of the polyfill on any reachable document: registering a
  listener, acting, and letting the host deliver the mode change.
*/
module Scenarios {
  import opened Wrappers
  import opened Dom
  import opened Register
  import opened Actions
  import opened Events
  import opened Listeners

  /**
    An enter listener registered before `requestPictureInPicture` fires on
    the delivery that follows; after `exitPictureInPicture` the next
    delivery does not fire it.
  */
  lemma RequestFiresEnterExitDoesNot(d: Doc, e: ElemId, cb: Callback)
    requires Inv(d) && e < |d.elems|
    requires !d.elems[e].disabled && d.elems[e].supportsPip
    ensures var listening := Listen(d, e, EnterPip, cb);
      var entered := Request(listening, e).value;
      var delivered := Deliver(entered, e, ModeChanged);
      var exited := Exit(delivered.0);
      && entered.holder == Some(e)
      && EnterSub(d.nextSub, cb) in delivered.1
      && exited.Success?
      && EnterSub(d.nextSub, cb) !in Deliver(exited.value, e, ModeChanged).1
  {
    var h := EnterSub(d.nextSub, cb);
    var listening := Listen(d, e, EnterPip, cb);
    assert Listener(ModeChanged, h) in listening.elems[e].listeners;
    var entered := Request(listening, e).value;
    assert Listener(ModeChanged, h) in entered.elems[e].listeners;
    EnterFiresIffPip(entered, e, h);
    var delivered := Deliver(entered, e, ModeChanged);
    assert delivered.0.holder == Some(e) by {
      LeaveOnPipEntry(entered, e);
    }
    var exited := Exit(delivered.0).value;
    assert Get(delivered.0).1 == Some(e);
    assert exited.elems[e].mode == Inline;
    EnterFiresIffPip(exited, e, h);
  }

  /**
    A leave listener registered while the element is in picture-in-picture
    fires exactly once when the host puts the element back inline, even if
    the mode change is delivered twice, and the register is empty after
    the first delivery.
  */
  lemma HostExitFiresLeaveOnce(d: Doc, e: ElemId, cb: Callback)
    requires Inv(d) && e < |d.elems|
    requires !d.elems[e].disabled && d.elems[e].supportsPip
    requires forall h: Handler :: h.LeaveSub? ==> Listener(ModeChanged, h) !in d.elems[e].listeners
    ensures var entered := Request(d, e).value;
      var listening := Listen(entered, e, LeavePip, cb);
      var first := Deliver(SetMode(listening, e, Inline), e, ModeChanged);
      var second := Deliver(first.0, e, ModeChanged);
      && LeaveSub(d.nextSub, cb) in first.1
      && LeaveSub(d.nextSub, cb) !in second.1
      && first.0.holder == None
      && second.0.holder == None
  {
    var h := LeaveSub(d.nextSub, cb);
    var entered := Request(d, e).value;
    var listening := Listen(entered, e, LeavePip, cb);
    assert listening.elems[e].prevMode == PictureInPicture;
    var inline := SetMode(listening, e, Inline);
    SetModeFrame(listening, e, Inline);
    var ls := inline.elems[e].listeners;
    assert Listener(ModeChanged, h) in ls;
    assert forall x: Handler :: x.LeaveSub? && Listener(ModeChanged, x) in ls ==> x == h by {
      forall x: Handler | x.LeaveSub? && Listener(ModeChanged, x) in ls
        ensures x == h
      {
        assert Listener(ModeChanged, x) in listening.elems[e].listeners;
        assert Listener(ModeChanged, x) in entered.elems[e].listeners || x == h;
        assert Listener(ModeChanged, x) != ObserverListener;
      }
    }
    var snap := Snapshot(ls, ModeChanged);
    var fl := FirstLeave(snap, ModeChanged, ls);
    assert fl == Some(h) by {
      assert h in snap;
      if fl.None? {
        assert false;
      }
    }
    LeaveOnInline(inline, e, h);
    var first := Deliver(inline, e, ModeChanged);
    assert inline.holder == Some(e);
    ObserverClears(inline, e);
    LeaveOnInline(first.0, e, h);
    InlineKeepsEmpty(first.0, e);
  }

  /**
    A leave listener registered before entering picture-in-picture does not
    fire on the entry, and the delivery leaves the element as the register's
    holder with picture-in-picture recorded as its previous mode.
  */
  lemma EntryDoesNotFireLeave(d: Doc, e: ElemId, cb: Callback)
    requires Inv(d) && e < |d.elems|
    ensures var listening := Listen(d, e, LeavePip, cb);
      var delivered := Deliver(SetMode(listening, e, PictureInPicture), e, ModeChanged);
      && LeaveSub(d.nextSub, cb) !in delivered.1
      && delivered.0.holder == Some(e)
      && delivered.0.elems[e].prevMode == PictureInPicture
  {
    var listening := Listen(d, e, LeavePip, cb);
    var entered := SetMode(listening, e, PictureInPicture);
    assert Listener(ModeChanged, LeaveSub(d.nextSub, cb)) in entered.elems[e].listeners;
    LeaveOnPipEntry(entered, e);
  }

  /**
    Leave subscriptions share the element's recorded previous mode: with
    two leave listeners registered in picture-in-picture, the host's return
    to inline fires only the one registered first.
  */
  lemma OnlyFirstLeaveFires(d: Doc, e: ElemId, cb1: Callback, cb2: Callback)
    requires HolderValid(d) && e < |d.elems| && ElementOk(d.elems[e], d.nextSub)
    requires d.elems[e].mode == PictureInPicture
    requires forall h: Handler :: h.LeaveSub? ==> Listener(ModeChanged, h) !in d.elems[e].listeners
    ensures var one := Listen(d, e, LeavePip, cb1);
      var two := Listen(one, e, LeavePip, cb2);
      var delivered := Deliver(SetMode(two, e, Inline), e, ModeChanged);
      && LeaveSub(d.nextSub, cb1) in delivered.1
      && LeaveSub(d.nextSub + 1, cb2) !in delivered.1
  {
    var h1 := LeaveSub(d.nextSub, cb1);
    var h2 := LeaveSub(d.nextSub + 1, cb2);
    var inline := SetMode(Listen(Listen(d, e, LeavePip, cb1), e, LeavePip, cb2), e, Inline);
    TwoLeaveListeners(d, e, cb1, cb2);
    FirstOfTwoAppended(d.elems[e].listeners, h1, h2);
    LeaveOnInline(inline, e, h1);
    LeaveOnInline(inline, e, h2);
  }

  /** Two leave registrations in picture-in-picture, then the host's return to inline. */
  lemma TwoLeaveListeners(d: Doc, e: ElemId, cb1: Callback, cb2: Callback)
    requires HolderValid(d) && e < |d.elems| && ElementOk(d.elems[e], d.nextSub)
    requires d.elems[e].mode == PictureInPicture
    ensures var inline := SetMode(Listen(Listen(d, e, LeavePip, cb1), e, LeavePip, cb2), e, Inline);
      && inline.elems[e].mode == Inline
      && inline.elems[e].prevMode == PictureInPicture
      && inline.elems[e].listeners ==
           d.elems[e].listeners + [Listener(ModeChanged, LeaveSub(d.nextSub, cb1))]
                                + [Listener(ModeChanged, LeaveSub(d.nextSub + 1, cb2))]
  {
    NamesDistinct();
    var one := Listen(d, e, LeavePip, cb1);
    assert one.nextSub == d.nextSub + 1;
    var el1 := ListenElem(d.elems[e], LeavePip, cb1, d.nextSub);
    assert one.elems[e] == el1;
    var two := Listen(one, e, LeavePip, cb2);
    var el2 := ListenElem(el1, LeavePip, cb2, d.nextSub + 1);
    assert two.elems[e] == el2;
    TwoLeaveElem(d.elems[e], cb1, cb2, d.nextSub);
    assert SetMode(two, e, Inline).elems[e] == el2.(mode := Inline);
  }

  /** Two leave registrations on one element. */
  lemma TwoLeaveElem(el: Element, cb1: Callback, cb2: Callback, id: nat)
    requires ElementOk(el, id)
    ensures var two := ListenElem(ListenElem(el, LeavePip, cb1, id), LeavePip, cb2, id + 1);
      && two.prevMode == el.mode
      && two.listeners == el.listeners + [Listener(ModeChanged, LeaveSub(id, cb1))]
                                       + [Listener(ModeChanged, LeaveSub(id + 1, cb2))]
  {
    var l1 := Listener(ModeChanged, LeaveSub(id, cb1));
    var l2 := Listener(ModeChanged, LeaveSub(id + 1, cb2));
    NamesDistinct();
    var one := ListenElem(el, LeavePip, cb1, id);
    assert l1 !in el.listeners;
    assert one.listeners == el.listeners + [l1];
    assert l2 !in one.listeners;
  }

  /** Among leave subscriptions appended after a list holding none, the first appended is the first found. */
  lemma FirstOfTwoAppended(ls0: seq<Listener>, h1: Handler, h2: Handler)
    requires h1.LeaveSub? && h2.LeaveSub?
    requires forall h: Handler :: h.LeaveSub? ==> Listener(ModeChanged, h) !in ls0
    ensures var ls := ls0 + [Listener(ModeChanged, h1)] + [Listener(ModeChanged, h2)];
      FirstLeave(Snapshot(ls, ModeChanged), ModeChanged, ls) == Some(h1)
  {
    var l1 := Listener(ModeChanged, h1);
    var l2 := Listener(ModeChanged, h2);
    var ls := ls0 + [l1] + [l2];
    SnapshotAppend(ls0 + [l1], [l2], ModeChanged);
    SnapshotAppend(ls0, [l1], ModeChanged);
    assert Snapshot([l1], ModeChanged) == [h1];
    var s0 := Snapshot(ls0, ModeChanged);
    assert Snapshot(ls, ModeChanged) == s0 + [h1] + Snapshot([l2], ModeChanged);
    FirstLeaveAppend(s0 + [h1], Snapshot([l2], ModeChanged), ModeChanged, ls);
    FirstLeaveAppend(s0, [h1], ModeChanged, ls);
    assert FirstLeave(s0, ModeChanged, ls).None?;
    assert FirstLeave([h1], ModeChanged, ls) == Some(h1);
  }
}
