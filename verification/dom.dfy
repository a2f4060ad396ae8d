/**
  The host environment as the polyfill sees it: video elements in document
  order, each with a presentation mode, two capability flags, its native
  listener list and the bookkeeping the polyfill stores on it.
*/
module Dom {
  import opened Wrappers

  /** The value of `webkitPresentationMode`; `Empty` stands for a falsy value. */
  datatype Mode = Empty | Inline | Fullscreen | PictureInPicture

  /** An element is identified by its position in document order. */
  type ElemId = nat

  /**
    A caller's callback: its identity and its source text. Converting a
    function to a property key yields its source text, so two different
    callbacks may share a key.
  */
  datatype Callback = Callback(id: nat, source: string)

  type Key = string

  /** The key under which a callback's binding is stored. */
  function KeyOf(cb: Callback): Key { cb.source }

  const ModeChanged := "webkitpresentationmodechanged"
  const EnterPip := "enterpictureinpicture"
  const LeavePip := "leavepictureinpicture"

  /** The three event names are distinct. */
  lemma NamesDistinct()
    ensures EnterPip != LeavePip && EnterPip != ModeChanged && LeavePip != ModeChanged
  {
    assert EnterPip[0] != LeavePip[0];
    assert |EnterPip| != |ModeChanged| && |LeavePip| != |ModeChanged|;
  }

  /**
    A function attached to the native listener list: the register's
    observer (one shared function), an enter or leave subscription (a fresh
    closure per registration, told apart by `id`), or a caller's own
    callback passed straight through.
  */
  datatype Handler =
    | RegisterObserver
    | EnterSub(id: nat, cb: Callback)
    | LeaveSub(id: nat, cb: Callback)
    | Native(cb: Callback)
  {
    predicate IsSub() { EnterSub? || LeaveSub? }
  }

  datatype Listener = Listener(event: string, handler: Handler)

  const ObserverListener := Listener(ModeChanged, RegisterObserver)

  /** Binding maps: `None` until the first registration creates the object. */
  type Bindings = Option<map<Key, Handler>>

  datatype Element = Element(
    mode: Mode,
    disabled: bool,
    supportsPip: bool,
    listeners: seq<Listener>,
    enterBindings: Bindings,
    leaveBindings: Bindings,
    prevMode: Mode)

  /** The document: its videos, the picture-in-picture register, and the next fresh subscription id. */
  datatype Doc = Doc(elems: seq<Element>, holder: Option<ElemId>, nextSub: nat)

  /** Native `addEventListener`: a listener already in the list is not added twice. */
  function Attach(ls: seq<Listener>, l: Listener): (r: seq<Listener>)
    ensures forall x :: x in r <==> x in ls || x == l
    ensures multiset(r)[l] == if l in ls then multiset(ls)[l] else 1
    ensures forall y :: y != l ==> multiset(r)[y] == multiset(ls)[y]
  {
    if l in ls then ls else ls + [l]
  }

  /** Native `removeEventListener`: drops the matching listener, keeping the order of the rest. */
  function Detach(ls: seq<Listener>, l: Listener): (r: seq<Listener>)
    ensures multiset(r)[l] == 0
    ensures forall y :: y != l ==> multiset(r)[y] == multiset(ls)[y]
    ensures forall x :: x in r <==> x in ls && x != l
    ensures l !in ls ==> r == ls
  {
    if ls == [] then []
    else
      assert ls == [ls[0]] + ls[1..];
      if ls[0] == l then Detach(ls[1..], l)
      else [ls[0]] + Detach(ls[1..], l)
  }

  /** Adding a listener that was absent and removing it again restores the list. */
  lemma {:induction false} DetachAttach(ls: seq<Listener>, l: Listener)
    requires l !in ls
    ensures Detach(Attach(ls, l), l) == ls
  {
    DetachAppended(ls, l);
  }

  lemma {:induction false} DetachAppended(ls: seq<Listener>, l: Listener)
    requires l !in ls
    ensures Detach(ls + [l], l) == ls
  {
    if ls != [] {
      assert (ls + [l])[0] == ls[0] != l;
      assert (ls + [l])[1..] == ls[1..] + [l];
      DetachAppended(ls[1..], l);
      assert Detach(ls + [l], l) == [ls[0]] + ls[1..];
    }
  }

  /** Removing a listener twice removes it once. */
  lemma {:induction false} DetachTwice(ls: seq<Listener>, l: Listener)
    ensures Detach(Detach(ls, l), l) == Detach(ls, l)
  {
    if ls != [] {
      DetachTwice(ls[1..], l);
      if ls[0] != l {
        assert Detach(ls, l) == [ls[0]] + Detach(ls[1..], l);
        assert ([ls[0]] + Detach(ls[1..], l))[1..] == Detach(ls[1..], l);
      }
    }
  }

  /** A listener appended at the end is dropped by removing it. */
  lemma {:induction false} DetachAppend(ls: seq<Listener>, l: Listener)
    ensures Detach(ls + [l], l) == Detach(ls, l)
  {
    if ls == [] {
      assert Detach([l], l) == Detach([], l);
    } else {
      assert (ls + [l])[0] == ls[0];
      assert (ls + [l])[1..] == ls[1..] + [l];
      DetachAppend(ls[1..], l);
    }
  }

  function WithElem(d: Doc, i: ElemId, el: Element): (r: Doc)
    requires i < |d.elems|
    ensures r.elems == d.elems[i := el] && r.holder == d.holder && r.nextSub == d.nextSub
  {
    d.(elems := d.elems[i := el])
  }

  /** The host's `webkitSetPresentationMode`: only the element's mode changes. */
  function SetMode(d: Doc, e: ElemId, m: Mode): (r: Doc)
    requires e < |d.elems|
    ensures |r.elems| == |d.elems| && r.holder == d.holder && r.nextSub == d.nextSub
    ensures r.elems[e] == d.elems[e].(mode := m)
    ensures forall i :: 0 <= i < |d.elems| && i != e ==> r.elems[i] == d.elems[i]
  {
    WithElem(d, e, d.elems[e].(mode := m))
  }

  /**
    Replacing an element by one with the same listeners and bindings keeps
    every listener attached, in order, and keeps the invariant.
  */
  lemma ReplaceFrame(d: Doc, i: ElemId, el: Element)
    requires i < |d.elems|
    requires el.listeners == d.elems[i].listeners
    requires el.enterBindings == d.elems[i].enterBindings && el.leaveBindings == d.elems[i].leaveBindings
    ensures SubsUnchanged(d, WithElem(d, i, el)) && OthersInOrder(d, WithElem(d, i, el))
    ensures Inv(d) ==> Inv(WithElem(d, i, el))
  {
    var r := WithElem(d, i, el);
    assert forall j :: 0 <= j < |d.elems| ==> r.elems[j].listeners == d.elems[j].listeners;
    if Inv(d) {
      forall j | 0 <= j < |d.elems|
        ensures ElementOk(r.elems[j], r.nextSub)
      {
        assert ElementOk(d.elems[j], d.nextSub);
      }
    }
  }

  /** Changing a mode touches neither listeners, bindings nor the register. */
  lemma SetModeFrame(d: Doc, e: ElemId, m: Mode)
    requires e < |d.elems|
    ensures SubsUnchanged(d, SetMode(d, e, m)) && OthersInOrder(d, SetMode(d, e, m))
    ensures Inv(d) ==> Inv(SetMode(d, e, m))
  {
    ReplaceFrame(d, e, d.elems[e].(mode := m));
  }

  predicate HolderValid(d: Doc) {
    d.holder.Some? ==> d.holder.value < |d.elems|
  }

  /** Bookkeeping every reachable listener satisfies. */
  predicate ListenerOk(l: Listener, nextSub: nat) {
    && l.event != EnterPip
    && l.event != LeavePip
    && (!l.handler.Native? ==> l.event == ModeChanged)
    && (l.handler.IsSub() ==> l.handler.id < nextSub)
  }

  predicate BindingsOk(b: Bindings, nextSub: nat) {
    b.Some? ==> forall k :: k in b.value ==> b.value[k].IsSub() && b.value[k].id < nextSub
  }

  predicate ElementOk(el: Element, nextSub: nat) {
    && (forall l :: l in el.listeners ==> ListenerOk(l, nextSub))
    && multiset(el.listeners)[ObserverListener] <= 1
    && BindingsOk(el.enterBindings, nextSub)
    && BindingsOk(el.leaveBindings, nextSub)
  }

  lemma ElementOkMono(el: Element, n: nat, m: nat)
    requires ElementOk(el, n) && n <= m
    ensures ElementOk(el, m)
  {
  }

  /**
    The invariant of reachable documents: the register names a document
    element, exactly the held element carries the register's observer and
    carries it once, synthetic event names never reach the native list, and
    every subscription id was handed out already.
  */
  predicate Inv(d: Doc) {
    && HolderValid(d)
    && (forall i :: 0 <= i < |d.elems| ==> ElementOk(d.elems[i], d.nextSub))
    && (forall i :: 0 <= i < |d.elems| ==> (ObserverListener in d.elems[i].listeners <==> d.holder == Some(i)))
  }

  /** The polyfill has just loaded: nothing registered, register empty. */
  predicate Initial(d: Doc) {
    && d.holder == None
    && forall i :: 0 <= i < |d.elems| ==>
         d.elems[i].listeners == [] && d.elems[i].enterBindings == None && d.elems[i].leaveBindings == None
  }

  lemma InitialInv(d: Doc)
    requires Initial(d)
    ensures Inv(d)
  {
  }

  /** Every element's mode, flags and binding maps agree, and so does the id counter. */
  ghost predicate FieldsUnchanged(a: Doc, b: Doc) {
    && |a.elems| == |b.elems|
    && a.nextSub == b.nextSub
    && forall i :: 0 <= i < |a.elems| ==>
         && b.elems[i].mode == a.elems[i].mode
         && b.elems[i].disabled == a.elems[i].disabled
         && b.elems[i].supportsPip == a.elems[i].supportsPip
         && b.elems[i].enterBindings == a.elems[i].enterBindings
         && b.elems[i].leaveBindings == a.elems[i].leaveBindings
  }

  /** Every listener other than the register's observer is attached in `a` exactly when in `b`. */
  ghost predicate SubsUnchanged(a: Doc, b: Doc)
    requires |a.elems| == |b.elems|
  {
    forall i, l :: 0 <= i < |a.elems| && l != ObserverListener ==>
      (l in b.elems[i].listeners <==> l in a.elems[i].listeners)
  }

  /** Every element's listeners other than the register's observer are the same list, in the same order, in `a` and `b`. */
  ghost predicate OthersInOrder(a: Doc, b: Doc)
    requires |a.elems| == |b.elems|
  {
    forall i :: 0 <= i < |a.elems| ==>
      Detach(b.elems[i].listeners, ObserverListener) == Detach(a.elems[i].listeners, ObserverListener)
  }

  lemma OrderTrans(a: Doc, b: Doc, c: Doc)
    requires |a.elems| == |b.elems| == |c.elems|
    requires OthersInOrder(a, b) && OthersInOrder(b, c)
    ensures OthersInOrder(a, c)
  {
  }

  lemma SubsTrans(a: Doc, b: Doc, c: Doc)
    requires |a.elems| == |b.elems| == |c.elems|
    requires SubsUnchanged(a, b) && SubsUnchanged(b, c)
    ensures SubsUnchanged(a, c)
  {
  }

  lemma FrameTrans(a: Doc, b: Doc, c: Doc)
    requires FieldsUnchanged(a, b) && FieldsUnchanged(b, c)
    requires SubsUnchanged(a, b) && SubsUnchanged(b, c)
    ensures FieldsUnchanged(a, c) && SubsUnchanged(a, c)
  {
  }
}
