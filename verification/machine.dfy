/**
  The polyfill as a state machine: every operation a page or the host can
  perform is one step on the document, and a run is a sequence of steps.
  Mode changes and their deliveries are separate steps, because the host
  delivers `webkitpresentationmodechanged` asynchronously.
*/
module Machine {
  import opened Wrappers
  import opened Dom
  import opened Register
  import opened Actions
  import opened Events
  import opened Listeners

  datatype Op =
    | Assign(v: Option<ElemId>)                          // document.pictureInPictureElement = v
    | Read                                               // document.pictureInPictureElement
    | HostMode(e: ElemId, m: Mode)                       // the host changes an element's mode
    | Dispatch(e: ElemId, name: string)                  // the host delivers an event to an element
    | RequestPip(e: ElemId)                              // element.requestPictureInPicture()
    | ExitPip                                            // document.exitPictureInPicture()
    | AddListener(e: ElemId, name: string, cb: Callback) // element.addEventListener(name, cb)
    | RemoveListener(e: ElemId, name: string, cb: Callback)

  datatype Output = Done | Value(v: Option<ElemId>) | Fired(hs: seq<Handler>) | Rejected(err: Error)

  /** The operation names elements of a document with `n` elements. */
  predicate Fits(n: nat, op: Op) {
    match op
    case Assign(v) => v.Some? ==> v.value < n
    case Read => true
    case ExitPip => true
    case HostMode(e, _) => e < n
    case Dispatch(e, _) => e < n
    case RequestPip(e) => e < n
    case AddListener(e, _, _) => e < n
    case RemoveListener(e, _, _) => e < n
  }

  /** One step; a rejected action leaves the document as it was. */
  function Step(d: Doc, op: Op): (r: (Doc, Output))
    requires HolderValid(d) && Fits(|d.elems|, op)
    ensures |r.0.elems| == |d.elems| && HolderValid(r.0)
    ensures Inv(d) ==> Inv(r.0)
    ensures r.1.Rejected? ==> r.0 == d
    ensures r.1.Fired? <==> op.Dispatch?
  {
    match op
    case Assign(v) => SetPreservesInv(d, v); (Set(d, v), Done)
    case Read => var g := Get(d); (g.0, Value(g.1))
    case HostMode(e, m) => SetModeFrame(d, e, m); (SetMode(d, e, m), Done)
    case Dispatch(e, name) => var del := Deliver(d, e, name); (del.0, Fired(del.1))
    case RequestPip(e) =>
      (match Request(d, e)
       case Success(d') => (d', Done)
       case Failure(err) => (d, Rejected(err)))
    case ExitPip =>
      (match Exit(d)
       case Success(d') => (d', Done)
       case Failure(err) => (d, Rejected(err)))
    case AddListener(e, name, cb) => (Listen(d, e, name, cb), Done)
    case RemoveListener(e, name, cb) => (Unlisten(d, e, name, cb), Done)
  }

  /** Pairs each fired subscription with the element the event was delivered to. */
  function Tag(e: ElemId, hs: seq<Handler>): (r: seq<(ElemId, Handler)>)
    ensures forall p :: p in r <==> p.0 == e && p.1 in hs
  {
    if hs == [] then []
    else
      assert forall h :: h in hs <==> h == hs[0] || h in hs[1..];
      [(e, hs[0])] + Tag(e, hs[1..])
  }

  /** Runs the operations in order, logging every subscription that fired. */
  function Execute(d: Doc, ops: seq<Op>): (r: (Doc, seq<(ElemId, Handler)>))
    requires HolderValid(d)
    requires forall k :: 0 <= k < |ops| ==> Fits(|d.elems|, ops[k])
    ensures |r.0.elems| == |d.elems| && HolderValid(r.0)
    ensures Inv(d) ==> Inv(r.0)
    decreases |ops|
  {
    if ops == [] then (d, [])
    else
      var s := Step(d, ops[0]);
      var fired := if ops[0].Dispatch? then Tag(ops[0].e, s.1.hs) else [];
      var rest := Execute(s.0, ops[1..]);
      (rest.0, fired + rest.1)
  }

  /** Subscription `h` once existed and is no longer attached to element `e`. */
  predicate Gone(d: Doc, e: ElemId, h: Handler) {
    e < |d.elems| && h.IsSub() && h.id < d.nextSub && Listener(ModeChanged, h) !in d.elems[e].listeners
  }

  /**
    No operation re-attaches a subscription once it is gone: new ones get
    fresh ids. A delivery to the element never invokes it.
  */
  lemma StepKeepsGone(d: Doc, op: Op, e: ElemId, h: Handler)
    requires Inv(d) && Fits(|d.elems|, op)
    requires Gone(d, e, h)
    ensures Gone(Step(d, op).0, e, h)
    ensures op.Dispatch? && op.e == e ==> h !in Step(d, op).1.hs
  {
    var r := Step(d, op).0;
    var l := Listener(ModeChanged, h);
    assert l != ObserverListener;
    match op
    case Assign(v) =>
    case Read =>
    case HostMode(f, m) => SetModeFrame(d, f, m);
    case Dispatch(f, name) => if f == e { DetachedNeverFires(d, e, name, h); }
    case RequestPip(f) =>
    case ExitPip =>
    case AddListener(f, name, cb) =>
    case RemoveListener(f, name, cb) =>
      if f == e {
        var el := d.elems[e];
        if name == EnterPip && el.enterBindings.Some? {
          assert l in r.elems[e].listeners ==> l in el.listeners;
        } else if name == LeavePip && el.leaveBindings.Some? {
          assert l in r.elems[e].listeners ==> l in el.listeners;
        }
      }
  }

  lemma {:induction false} GoneNeverFires(d: Doc, ops: seq<Op>, e: ElemId, h: Handler)
    requires Inv(d)
    requires forall k :: 0 <= k < |ops| ==> Fits(|d.elems|, ops[k])
    requires Gone(d, e, h)
    ensures (e, h) !in Execute(d, ops).1
    decreases |ops|
  {
    if ops != [] {
      var s := Step(d, ops[0]);
      StepKeepsGone(d, ops[0], e, h);
      GoneNeverFires(s.0, ops[1..], e, h);
    }
  }

  /**
    Once a synthetic listener's bound subscription is removed, no run of
    operations that follows has it fire on that element again.
  */
  lemma RemovedNeverFiresAgain(d: Doc, e: ElemId, name: string, cb: Callback, ops: seq<Op>)
    requires Inv(d) && e < |d.elems|
    requires name == EnterPip || name == LeavePip
    requires var b := if name == EnterPip then d.elems[e].enterBindings else d.elems[e].leaveBindings;
      b.Some? && KeyOf(cb) in b.value
    requires forall k :: 0 <= k < |ops| ==> Fits(|d.elems|, ops[k])
    ensures var b := if name == EnterPip then d.elems[e].enterBindings else d.elems[e].leaveBindings;
      (e, b.value[KeyOf(cb)]) !in Execute(Unlisten(d, e, name, cb), ops).1
  {
    var b := if name == EnterPip then d.elems[e].enterBindings else d.elems[e].leaveBindings;
    var h := b.value[KeyOf(cb)];
    var r := Unlisten(d, e, name, cb);
    UnlistenBound(d, e, name, cb);
    assert ElementOk(d.elems[e], d.nextSub);
    assert Gone(r, e, h);
    GoneNeverFires(r, ops, e, h);
  }

  /** Every document reached from a freshly loaded one satisfies the invariant. */
  lemma ReachableInv(d: Doc, ops: seq<Op>)
    requires Initial(d)
    requires forall k :: 0 <= k < |ops| ==> Fits(|d.elems|, ops[k])
    ensures Inv(Execute(d, ops).0)
  {
    InitialInv(d);
  }
}
