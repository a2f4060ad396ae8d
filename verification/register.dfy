/**
  The `document.pictureInPictureElement` register: a single cell naming the
  element in picture-in-picture, kept current by an observer attached to
  the element it holds, and repaired on read by a scan in document order.
*/
module Register {
  import opened Wrappers
  import opened Dom

  function AttachObserver(d: Doc, i: ElemId): (r: Doc)
    requires i < |d.elems|
    ensures |r.elems| == |d.elems| && r.holder == d.holder && r.nextSub == d.nextSub
    ensures r.elems[i] == d.elems[i].(listeners := r.elems[i].listeners)
    ensures forall j :: 0 <= j < |d.elems| && j != i ==> r.elems[j] == d.elems[j]
    ensures ObserverListener in r.elems[i].listeners
    ensures multiset(r.elems[i].listeners)[ObserverListener] <= multiset(d.elems[i].listeners)[ObserverListener] + 1
    ensures ObserverListener !in d.elems[i].listeners ==> multiset(r.elems[i].listeners)[ObserverListener] == 1
    ensures forall l :: l != ObserverListener ==> (l in r.elems[i].listeners <==> l in d.elems[i].listeners)
    ensures ObserverListener in d.elems[i].listeners ==> r == d
    ensures ObserverListener !in d.elems[i].listeners ==> r.elems[i].listeners == d.elems[i].listeners + [ObserverListener]
    ensures FieldsUnchanged(d, r) && SubsUnchanged(d, r)
  {
    WithElem(d, i, d.elems[i].(listeners := Attach(d.elems[i].listeners, ObserverListener)))
  }

  function DetachObserver(d: Doc, i: ElemId): (r: Doc)
    requires i < |d.elems|
    ensures |r.elems| == |d.elems| && r.holder == d.holder && r.nextSub == d.nextSub
    ensures r.elems[i] == d.elems[i].(listeners := r.elems[i].listeners)
    ensures forall j :: 0 <= j < |d.elems| && j != i ==> r.elems[j] == d.elems[j]
    ensures ObserverListener !in r.elems[i].listeners
    ensures forall l :: l != ObserverListener ==> (l in r.elems[i].listeners <==> l in d.elems[i].listeners)
    ensures Detach(r.elems[i].listeners, ObserverListener) == Detach(d.elems[i].listeners, ObserverListener)
    ensures FieldsUnchanged(d, r) && SubsUnchanged(d, r)
  {
    var ls := d.elems[i].listeners;
    DetachTwice(ls, ObserverListener);
    var r := WithElem(d, i, d.elems[i].(listeners := Detach(ls, ObserverListener)));
    assert r.elems[i].listeners == Detach(ls, ObserverListener);
    r
  }

  /**
    The register's setter. Storing the value already held changes nothing;
    any other value moves the observer from the old holder, if any, to the
    new one, if any. Only the observer listener of those two elements moves.
  */
  function Set(d: Doc, v: Option<ElemId>): (r: Doc)
    requires HolderValid(d)
    requires v.Some? ==> v.value < |d.elems|
    ensures HolderValid(r) && r.holder == v
    ensures |r.elems| == |d.elems| && r.nextSub == d.nextSub
    ensures v == d.holder ==> r == d
    ensures v != d.holder && d.holder.Some? ==> ObserverListener !in r.elems[d.holder.value].listeners
    ensures v != d.holder && v.Some? ==> ObserverListener in r.elems[v.value].listeners
    ensures v != d.holder && v.Some? && ObserverListener !in d.elems[v.value].listeners ==>
      r.elems[v.value].listeners == d.elems[v.value].listeners + [ObserverListener]
    ensures OthersInOrder(d, r)
    ensures forall i :: 0 <= i < |d.elems| && Some(i) != d.holder && Some(i) != v ==> r.elems[i] == d.elems[i]
    ensures forall i :: 0 <= i < |d.elems| ==> r.elems[i] == d.elems[i].(listeners := r.elems[i].listeners)
    ensures FieldsUnchanged(d, r) && SubsUnchanged(d, r)
  {
    if v == d.holder then d
    else
      var released := Release(d);
      var r := Hold(released, v);
      FrameTrans(d, released, r);
      OrderTrans(d, released, r);
      r
  }

  /** The first half of a change of value: the observer leaves the old holder and the register empties. */
  function Release(d: Doc): (r: Doc)
    requires HolderValid(d)
    ensures |r.elems| == |d.elems| && r.nextSub == d.nextSub && r.holder == None
    ensures d.holder.Some? ==> ObserverListener !in r.elems[d.holder.value].listeners
    ensures forall i :: 0 <= i < |d.elems| && Some(i) != d.holder ==> r.elems[i] == d.elems[i]
    ensures forall i :: 0 <= i < |d.elems| ==> r.elems[i] == d.elems[i].(listeners := r.elems[i].listeners)
    ensures OthersInOrder(d, r)
    ensures FieldsUnchanged(d, r) && SubsUnchanged(d, r)
  {
    var detached := if d.holder.Some? then DetachObserver(d, d.holder.value) else d;
    detached.(holder := None)
  }

  /** The second half: the register stores `v` and the observer joins `v`, at the end of its listeners. */
  function Hold(d: Doc, v: Option<ElemId>): (r: Doc)
    requires v.Some? ==> v.value < |d.elems|
    ensures |r.elems| == |d.elems| && r.nextSub == d.nextSub && r.holder == v
    ensures v.Some? ==> ObserverListener in r.elems[v.value].listeners
    ensures v.Some? && ObserverListener !in d.elems[v.value].listeners ==>
      r.elems[v.value].listeners == d.elems[v.value].listeners + [ObserverListener]
    ensures forall i :: 0 <= i < |d.elems| && Some(i) != v ==> r.elems[i] == d.elems[i]
    ensures forall i :: 0 <= i < |d.elems| ==> r.elems[i] == d.elems[i].(listeners := r.elems[i].listeners)
    ensures OthersInOrder(d, r)
    ensures FieldsUnchanged(d, r) && SubsUnchanged(d, r)
  {
    var stored := d.(holder := v);
    if v.Some? then
      AttachKeepsOthers(stored, v.value);
      AttachObserver(stored, v.value)
    else stored
  }

  /** Attaching the observer leaves the element's other listeners, in order, as they were. */
  lemma AttachKeepsOthers(d: Doc, i: ElemId)
    requires i < |d.elems|
    ensures Detach(AttachObserver(d, i).elems[i].listeners, ObserverListener) == Detach(d.elems[i].listeners, ObserverListener)
  {
    if ObserverListener !in d.elems[i].listeners {
      DetachAppend(d.elems[i].listeners, ObserverListener);
    }
  }

  /** The setter keeps the invariant of reachable documents. */
  lemma SetPreservesInv(d: Doc, v: Option<ElemId>)
    requires HolderValid(d)
    requires v.Some? ==> v.value < |d.elems|
    ensures Inv(d) ==> Inv(Set(d, v))
  {
    var r := Set(d, v);
    if Inv(d) && v != d.holder {
      forall i | 0 <= i < |d.elems|
        ensures ElementOk(r.elems[i], r.nextSub)
        ensures ObserverListener in r.elems[i].listeners <==> r.holder == Some(i)
      {
        assert ElementOk(d.elems[i], d.nextSub);
        if Some(i) == v {
          assert ObserverListener !in d.elems[i].listeners;
        } else if Some(i) == d.holder {
        } else {
          assert r.elems[i] == d.elems[i];
        }
      }
    }
  }

  /**
    The first element at or after `from`, in document order, whose mode is
    picture-in-picture.
  */
  function FirstPip(elems: seq<Element>, from: nat): (r: Option<ElemId>)
    requires from <= |elems|
    ensures r.Some? ==> from <= r.value < |elems| && elems[r.value].mode == PictureInPicture
    ensures r.Some? ==> forall j :: from <= j < r.value ==> elems[j].mode != PictureInPicture
    ensures r.None? <==> forall j :: from <= j < |elems| ==> elems[j].mode != PictureInPicture
    decreases |elems| - from
  {
    if from == |elems| then None
    else if elems[from].mode == PictureInPicture then Some(from)
    else FirstPip(elems, from + 1)
  }

  /**
    The register's getter. A held value is returned as is. An empty
    register adopts, through the setter, the first element in document
    order whose mode is picture-in-picture; with none, the document is
    unchanged and nothing is returned. The value returned is always the
    value held afterwards.
  */
  function Get(d: Doc): (r: (Doc, Option<ElemId>))
    requires HolderValid(d)
    ensures HolderValid(r.0) && r.1 == r.0.holder
    ensures d.holder.Some? ==> r == (d, d.holder)
    ensures d.holder.None? ==>
      (r.1.None? <==> forall i :: 0 <= i < |d.elems| ==> d.elems[i].mode != PictureInPicture)
    ensures d.holder.None? && r.1.None? ==> r.0 == d
    ensures d.holder.None? && r.1.Some? ==>
      && r.1.value < |d.elems|
      && d.elems[r.1.value].mode == PictureInPicture
      && (forall j :: 0 <= j < r.1.value ==> d.elems[j].mode != PictureInPicture)
      && r.0 == Set(d, r.1)
    ensures FieldsUnchanged(d, r.0) && SubsUnchanged(d, r.0)
    ensures forall i :: 0 <= i < |d.elems| ==> r.0.elems[i] == d.elems[i].(listeners := r.0.elems[i].listeners)
    ensures OthersInOrder(d, r.0)
    ensures Inv(d) ==> Inv(r.0)
  {
    if d.holder.Some? then (d, d.holder)
    else
      match FirstPip(d.elems, 0)
      case None => (d, None)
      case Some(i) => SetPreservesInv(d, Some(i)); (Set(d, Some(i)), Some(i))
  }

  /**
    The register's observer running on a mode change of element `e`: a
    mode that is set and is not picture-in-picture clears the register; a
    picture-in-picture or unset mode leaves the document unchanged.
  */
  function Observe(d: Doc, e: ElemId): (r: Doc)
    requires HolderValid(d) && e < |d.elems|
    ensures var m := d.elems[e].mode; m != Empty && m != PictureInPicture ==> r.holder == None
    ensures var m := d.elems[e].mode; m == Empty || m == PictureInPicture ==> r == d
    ensures HolderValid(r) && FieldsUnchanged(d, r) && SubsUnchanged(d, r)
    ensures OthersInOrder(d, r)
    ensures forall i :: 0 <= i < |d.elems| ==> r.elems[i].prevMode == d.elems[i].prevMode
    ensures Inv(d) ==> Inv(r)
  {
    var m := d.elems[e].mode;
    SetPreservesInv(d, None);
    if m != Empty && m != PictureInPicture then Set(d, None) else d
  }

  /**
    Setting a value twice leaves the same document as setting it once, and
    in a reachable document the observer is then attached to that element
    exactly once and to no other element.
  */
  lemma SetTwice(d: Doc, v: Option<ElemId>)
    requires Inv(d)
    requires v.Some? ==> v.value < |d.elems|
    ensures Set(Set(d, v), v) == Set(d, v)
    ensures forall i :: 0 <= i < |d.elems| ==>
      multiset(Set(d, v).elems[i].listeners)[ObserverListener] == if v == Some(i) then 1 else 0
  {
    var r := Set(d, v);
    SetPreservesInv(d, v);
    forall i | 0 <= i < |d.elems|
      ensures multiset(r.elems[i].listeners)[ObserverListener] == if v == Some(i) then 1 else 0
    {
      assert ElementOk(r.elems[i], r.nextSub);
      if v == Some(i) {
        assert ObserverListener in r.elems[i].listeners;
      } else {
        assert ObserverListener !in r.elems[i].listeners;
      }
    }
  }

  /** In a reachable document at most one element carries the register's observer. */
  lemma AtMostOneObserver(d: Doc, i: ElemId, j: ElemId)
    requires Inv(d)
    requires i < |d.elems| && j < |d.elems|
    requires ObserverListener in d.elems[i].listeners && ObserverListener in d.elems[j].listeners
    ensures i == j && d.holder == Some(i)
  {
  }

  /** Reading twice returns the same element and the second read changes nothing. */
  lemma GetIdempotent(d: Doc)
    requires HolderValid(d)
    ensures Get(Get(d).0) == Get(d)
  {
  }
}
