/**
 * The values the runtime side of the library passes around: models, views,
 * payloads, the object a model binds to, and the calls made on a model.
 * Android views are values here; what a model does inside its own bind or
 * unbind is user code and is recorded as a call, not executed.
 */
module EpoxyModels {
  import opened Wrappers

  /** One element of a payload list (a List<Object> entry). */
  datatype Payload = Payload(token: nat)

  /** A view: the item view a holder was created with, or one inflated from a stub. */
  datatype View = ItemView(tag: nat) | InflatedView(stubId: int, layout: int)

  /** The arguments of getSpanSize(totalSpanCount, position, itemCount). */
  datatype SpanQuery = SpanQuery(totalSpanCount: int, position: int, itemCount: int)

  /**
   * What the group and the view holder read from a model: its id, its layout,
   * whether it is shown, whether it saves view state, whether it is an
   * EpoxyModelWithHolder, and its span-size rule.
   */
  datatype EpoxyModel = EpoxyModel(
    id: int,
    layout: int,
    shown: bool,
    saveViewState: bool,
    withHolder: bool,
    spanSize: SpanQuery -> int)

  /** A holder a model with a holder creates for itself (createNewHolder), bound to one view. */
  class EpoxyHolder {
    var view: Option<View>

    constructor()
      ensures view == None
    {
      view := None;
    }

    method BindView(itemView: View)
      modifies this
      ensures view == Some(itemView)
    {
      view := Some(itemView);
    }
  }

  /** The object a model's callbacks receive: its helper holder, or a view. */
  datatype BoundObject = HolderObject(holder: EpoxyHolder?) | ViewObject(view: View)

  /** The callbacks of a model that the library invokes. */
  datatype CallKind =
    | BindCall
    | BindWithPayloadsCall(payloads: seq<Payload>)
    | UnbindCall
    | AttachedCall
    | DetachedCall

  /** One callback invoked on a model, with the object passed to it. */
  datatype Call = Call(kind: CallKind, target: BoundObject)

  /** The IllegalStateExceptions of the runtime side. */
  datatype StateError =
    | NotBound
    | NoStubIdForIndex(index: int)
    | StubNotFound(index: int)
    | NotAViewStub(index: int)
}
