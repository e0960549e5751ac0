/**
 * The adapter's view holder: it remembers the model bound to it and the
 * payloads of that bind, and creates the model's helper holder the first
 * time a model with a holder is bound, keeping it from then on.
 */
module ViewHolders {
  import opened Wrappers
  import opened EpoxyModels

  class EpoxyViewHolder {
    const itemView: View
    var epoxyModel: Option<EpoxyModel>
    var payloads: Option<seq<Payload>>
    var epoxyHolder: EpoxyHolder?

    /** A model is bound exactly when its payloads are recorded. */
    ghost predicate Valid()
      reads this
    {
      epoxyModel.Some? <==> payloads.Some?
    }

    constructor(view: View)
      ensures Valid()
      ensures itemView == view && epoxyModel == None && payloads == None && epoxyHolder == null
    {
      itemView := view;
      epoxyModel := None;
      payloads := None;
      epoxyHolder := null;
    }

    /** objectToBind: the helper holder once one exists, the item view before. */
    function ObjectToBind(): (r: BoundObject)
      reads this
      ensures r.HolderObject? <==> epoxyHolder != null
      ensures r.HolderObject? ==> r.holder == epoxyHolder
      ensures r.ViewObject? ==> r.view == itemView
    {
      if epoxyHolder != null then HolderObject(epoxyHolder) else ViewObject(itemView)
    }

    /**
     * bind: record the payloads, create and bind the helper holder if there
     * is none yet and the model has one, make exactly one bind call (with the
     * payloads when there are any), and record the model.
     */
    method Bind(model: EpoxyModel, newPayloads: seq<Payload>) returns (call: Call)
      modifies this
      ensures Valid()
      ensures epoxyModel == Some(model) && payloads == Some(newPayloads)
      ensures old(epoxyHolder) != null ==> epoxyHolder == old(epoxyHolder)
      ensures old(epoxyHolder) == null && !model.withHolder ==> epoxyHolder == null
      ensures old(epoxyHolder) == null && model.withHolder ==>
        epoxyHolder != null && fresh(epoxyHolder) && epoxyHolder.view == Some(itemView)
      ensures call.target == ObjectToBind()
      ensures call.kind == if |newPayloads| == 0 then BindCall else BindWithPayloadsCall(newPayloads)
    {
      payloads := Some(newPayloads);
      if epoxyHolder == null && model.withHolder {
        var holder := new EpoxyHolder();
        holder.BindView(itemView);
        epoxyHolder := holder;
      }
      if |newPayloads| == 0 {
        call := Call(BindCall, ObjectToBind());
      } else {
        call := Call(BindWithPayloadsCall(newPayloads), ObjectToBind());
      }
      epoxyModel := Some(model);
    }

    /** assertBound: fails when no model is bound. */
    method AssertBound() returns (outcome: Outcome<StateError>)
      ensures outcome == if epoxyModel.None? then Fail(NotBound) else Pass
    {
      if epoxyModel.None? {
        return Fail(NotBound);
      }
      return Pass;
    }

    /**
     * unbind: fail when nothing is bound; otherwise make the unbind call on
     * the bound model and forget the model and its payloads. The helper
     * holder stays.
     */
    method Unbind() returns (r: Result<Call, StateError>)
      requires Valid()
      modifies this
      ensures Valid()
      ensures old(epoxyModel).None? ==> r == Failure(NotBound) && epoxyModel == None && payloads == old(payloads)
      ensures old(epoxyModel).Some? ==>
        r == Success(Call(UnbindCall, old(ObjectToBind()))) && epoxyModel == None && payloads == None
      ensures epoxyHolder == old(epoxyHolder)
    {
      var bound := AssertBound();
      if bound.Fail? {
        return Failure(bound.error);
      }
      r := Success(Call(UnbindCall, ObjectToBind()));
      epoxyModel := None;
      payloads := None;
    }

    /** getPayloads: the payloads of the current bind; fails when nothing is bound. */
    method GetPayloads() returns (r: Result<seq<Payload>, StateError>)
      requires Valid()
      ensures r.Failure? <==> epoxyModel.None?
      ensures r.Failure? ==> r.error == NotBound
      ensures r.Success? ==> payloads == Some(r.value)
    {
      var bound := AssertBound();
      if bound.Fail? {
        return Failure(bound.error);
      }
      return Success(payloads.value);
    }

    /** getModel: the bound model; fails when nothing is bound. */
    method GetModel() returns (r: Result<EpoxyModel, StateError>)
      ensures r.Failure? <==> epoxyModel.None?
      ensures r.Failure? ==> r.error == NotBound
      ensures r.Success? ==> epoxyModel == Some(r.value)
    {
      var bound := AssertBound();
      if bound.Fail? {
        return Failure(bound.error);
      }
      return Success(epoxyModel.value);
    }
  }

  /**
   * A view holder's life: bind a model, read it and its payloads back,
   * unbind, and find the accessors failing again; the helper holder created
   * by the bind survives the unbind.
   */
  method BindReadUnbind(view: View, model: EpoxyModel, payloads: seq<Payload>)
    returns (bound: Result<EpoxyModel, StateError>, boundPayloads: Result<seq<Payload>, StateError>,
             unbound: Result<EpoxyModel, StateError>, holderKept: bool)
    ensures bound == Success(model) && boundPayloads == Success(payloads)
    ensures unbound == Failure(NotBound)
    ensures holderKept
  {
    var holder := new EpoxyViewHolder(view);
    var _ := holder.Bind(model, payloads);
    var helper := holder.epoxyHolder;
    bound := holder.GetModel();
    boundPayloads := holder.GetPayloads();
    var _ := holder.Unbind();
    unbound := holder.GetModel();
    holderKept := holder.epoxyHolder == helper;
  }

  /**
   * Rebinding with a second model keeps the helper holder the first bind
   * created, even when the second model has no holder of its own: the
   * second bind's call goes to that same holder.
   */
  method RebindKeepsHelperHolder(view: View, first: EpoxyModel, second: EpoxyModel, payloads: seq<Payload>)
    returns (helper: EpoxyHolder?, target: BoundObject)
    requires first.withHolder
    ensures helper != null && helper.view == Some(view)
    ensures target == HolderObject(helper)
  {
    var holder := new EpoxyViewHolder(view);
    var _ := holder.Bind(first, payloads);
    helper := holder.epoxyHolder;
    var _ := holder.Unbind();
    var call := holder.Bind(second, payloads);
    target := call.target;
  }
}
