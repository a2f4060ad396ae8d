/**
  The two actions of the Picture-in-Picture API built on the host's
  presentation mode: `requestPictureInPicture` on an element and
  `exitPictureInPicture` on the document. A rejection leaves the document
  as it was.
*/
module Actions {
  import opened Wrappers
  import opened Dom
  import opened Register

  /**
    Why an action rejected. The request rejects with a plain `Error` (its
    second constructor argument is not a name), the exit with a
    `DOMException` named `InvalidStateError`.
  */
  datatype Error = NotAllowed | InvalidStateError

  /**
    `requestPictureInPicture`: rejected when the element carries the
    disable attribute or the host does not support picture-in-picture for
    it; otherwise the element's mode becomes picture-in-picture and the
    register holds it.
  */
  function Request(d: Doc, e: ElemId): (r: Result<Doc, Error>)
    requires HolderValid(d) && e < |d.elems|
    ensures r.Failure? <==> d.elems[e].disabled || !d.elems[e].supportsPip
    ensures r.Failure? ==> r.error == NotAllowed
    ensures r.Success? ==>
      && |r.value.elems| == |d.elems|
      && (forall i :: 0 <= i < |d.elems| ==>
            r.value.elems[i] == d.elems[i].(mode := r.value.elems[i].mode, listeners := r.value.elems[i].listeners))
      && OthersInOrder(d, r.value)
      && r.value.elems[e].mode == PictureInPicture
      && r.value.holder == Some(e)
      && r.value.nextSub == d.nextSub
      && (forall i :: 0 <= i < |d.elems| && i != e ==> r.value.elems[i].mode == d.elems[i].mode)
      && SubsUnchanged(d, r.value)
    ensures r.Success? && Inv(d) ==> Inv(r.value)
  {
    var el := d.elems[e];
    if el.disabled || !el.supportsPip then Failure(NotAllowed)
    else
      var entered := SetMode(d, e, PictureInPicture);
      SetModeFrame(d, e, PictureInPicture);
      SetPreservesInv(entered, Some(e));
      var r := Set(entered, Some(e));
      OrderTrans(d, entered, r);
      Success(r)
  }

  /**
    `exitPictureInPicture`: reads the register (which may adopt an element
    found in picture-in-picture); rejected when that read yields nothing.
    Otherwise the element read is put back inline and the register is
    cleared, so no element carries the register's observer afterwards.
  */
  function Exit(d: Doc): (r: Result<Doc, Error>)
    requires HolderValid(d)
    ensures r.Failure? <==> d.holder.None? && forall i :: 0 <= i < |d.elems| ==> d.elems[i].mode != PictureInPicture
    ensures r.Failure? ==> r.error == InvalidStateError
    ensures r.Success? ==>
      var k := Get(d).1.value;
      && k < |d.elems|
      && (d.holder.Some? ==> k == d.holder.value)
      && |r.value.elems| == |d.elems|
      && (forall i :: 0 <= i < |d.elems| ==>
            r.value.elems[i] == d.elems[i].(mode := r.value.elems[i].mode, listeners := r.value.elems[i].listeners))
      && OthersInOrder(d, r.value)
      && r.value.elems[k].mode == Inline
      && r.value.holder == None
      && r.value.nextSub == d.nextSub
      && (forall i :: 0 <= i < |d.elems| && i != k ==> r.value.elems[i].mode == d.elems[i].mode)
      && SubsUnchanged(d, r.value)
    ensures r.Success? && Inv(d) ==>
      Inv(r.value) && forall i :: 0 <= i < |d.elems| ==> ObserverListener !in r.value.elems[i].listeners
  {
    var read := Get(d);
    if read.1.None? then Failure(InvalidStateError)
    else
      var r := Dismiss(read.0, read.1.value);
      assert forall i :: 0 <= i < |d.elems| ==>
        r.elems[i] == d.elems[i].(mode := r.elems[i].mode, listeners := r.elems[i].listeners) by {
        forall i | 0 <= i < |d.elems|
          ensures r.elems[i] == d.elems[i].(mode := r.elems[i].mode, listeners := r.elems[i].listeners)
        {
          assert read.0.elems[i] == d.elems[i].(listeners := read.0.elems[i].listeners);
        }
      }
      SubsTrans(d, read.0, r);
      OrderTrans(d, read.0, r);
      Success(r)
  }

  /**
    The success path of `exitPictureInPicture` once the register has been
    read as `k`: `k` is put back inline and the register is cleared.
  */
  function Dismiss(d: Doc, k: ElemId): (r: Doc)
    requires HolderValid(d) && k < |d.elems|
    ensures |r.elems| == |d.elems| && r.holder == None && r.nextSub == d.nextSub
    ensures forall i :: 0 <= i < |d.elems| ==>
      r.elems[i] == d.elems[i].(mode := r.elems[i].mode, listeners := r.elems[i].listeners)
    ensures OthersInOrder(d, r)
    ensures r.elems[k].mode == Inline
    ensures forall i :: 0 <= i < |d.elems| && i != k ==> r.elems[i].mode == d.elems[i].mode
    ensures SubsUnchanged(d, r)
    ensures Inv(d) ==> Inv(r) && forall i :: 0 <= i < |d.elems| ==> ObserverListener !in r.elems[i].listeners
  {
    var exited := SetMode(d, k, Inline);
    SetModeFrame(d, k, Inline);
    SetPreservesInv(exited, None);
    var r := Set(exited, None);
    SubsTrans(d, exited, r);
    OrderTrans(d, exited, r);
    r
  }

  /**
    An element put in picture-in-picture by the host alone, while no other
    element is, is what the next read of the register returns.
  */
  lemma HostEnterThenRead(d: Doc, e: ElemId)
    requires Inv(d) && e < |d.elems|
    requires d.holder == None
    requires forall i :: 0 <= i < |d.elems| && i != e ==> d.elems[i].mode != PictureInPicture
    ensures Get(SetMode(d, e, PictureInPicture)).1 == Some(e)
  {
    var d' := SetMode(d, e, PictureInPicture);
    assert d'.elems[e].mode == PictureInPicture;
  }

  /** The documents along a request followed by an exit, mode by mode. */
  lemma RequestThenExitModes(d: Doc, e: ElemId)
    requires Inv(d) && e < |d.elems|
    requires !d.elems[e].disabled && d.elems[e].supportsPip
    ensures Request(d, e).Success? && Exit(Request(d, e).value).Success?
    ensures var r := Exit(Request(d, e).value).value;
      && |r.elems| == |d.elems| && r.elems[e].mode == Inline && r.holder == None
      && forall i :: 0 <= i < |d.elems| && i != e ==> r.elems[i].mode == d.elems[i].mode
  {
    var entered := Request(d, e).value;
    assert Get(entered).1 == Some(e);
  }

  /**
    Once `e` is back inline and the register is empty, a read finds nothing
    exactly when no other element is in picture-in-picture.
  */
  lemma ReadAfterExit(d: Doc, r: Doc, e: ElemId)
    requires HolderValid(r) && r.holder == None
    requires |r.elems| == |d.elems| && e < |d.elems| && r.elems[e].mode == Inline
    requires forall i :: 0 <= i < |d.elems| && i != e ==> r.elems[i].mode == d.elems[i].mode
    ensures Get(r).1 == None <==> forall i :: 0 <= i < |d.elems| && i != e ==> d.elems[i].mode != PictureInPicture
  {
    if forall i :: 0 <= i < |d.elems| && i != e ==> d.elems[i].mode != PictureInPicture {
      assert forall i :: 0 <= i < |r.elems| ==> r.elems[i].mode != PictureInPicture;
    } else {
      var j :| 0 <= j < |d.elems| && j != e && d.elems[j].mode == PictureInPicture;
      assert r.elems[j].mode == PictureInPicture;
    }
  }

  /** Requesting and then exiting leaves the element inline and the register empty. */
  lemma RequestThenExit(d: Doc, e: ElemId)
    requires Inv(d) && e < |d.elems|
    requires !d.elems[e].disabled && d.elems[e].supportsPip
    ensures Request(d, e).Success?
    ensures Exit(Request(d, e).value).Success?
    ensures var r := Exit(Request(d, e).value).value;
      r.elems[e].mode == Inline && r.holder == None
    ensures var r := Exit(Request(d, e).value).value;
      Get(r).1 == None <==> forall i :: 0 <= i < |d.elems| && i != e ==> d.elems[i].mode != PictureInPicture
  {
    RequestThenExitModes(d, e);
    ReadAfterExit(d, Exit(Request(d, e).value).value, e);
  }
}
