/**
 * A model group: one to five sub-models shown together in one item. Each
 * sub-model is inflated into its own view stub; binding the group binds the
 * shown sub-models, and unbind, attach and detach reach every sub-model, all
 * in index order.
 */
module ModelGroups {
  import opened Wrappers
  import opened EpoxyModels

  /** The hard cap on the number of sub-models: one stub id exists per slot. */
  const MaxModelsSupported: nat := 5

  /** The five stub ids R.id.model_mixer_view_stub_1 .. _5 (distinct constants). */
  const ModelMixerViewStub1: int := 1
  const ModelMixerViewStub2: int := 2
  const ModelMixerViewStub3: int := 3
  const ModelMixerViewStub4: int := 4
  const ModelMixerViewStub5: int := 5

  /** The IllegalArgumentExceptions of the group constructor. */
  datatype GroupError = ModelsEmpty | TooManyModels

  /** The immutable state of a group, fixed by its constructor. */
  datatype EpoxyModelGroup = EpoxyModelGroup(layout: int, id: int, models: seq<EpoxyModel>, saveViewState: bool)

  /** Whether any sub-model saves its view state. */
  predicate AnySavesViewState(models: seq<EpoxyModel>) {
    exists i :: 0 <= i < |models| && models[i].saveViewState
  }

  /**
   * A group as its constructor lets it exist: one to five sub-models, the
   * id of the first one, and view state saved exactly when some sub-model
   * saves it.
   */
  type ModelGroup = g: EpoxyModelGroup |
    && 1 <= |g.models| <= MaxModelsSupported
    && g.id == g.models[0].id
    && (g.saveViewState <==> AnySavesViewState(g.models))
    witness EpoxyModelGroup(0, 0, [EpoxyModel(0, 0, true, false, false, q => 1)], false)

  /**
   * The private constructor: reject zero or more than five sub-models, take
   * the id of the first one, and save view state if any sub-model does.
   */
  method NewModelGroup(layoutRes: int, models: seq<EpoxyModel>) returns (r: Result<ModelGroup, GroupError>)
    ensures |models| == 0 ==> r == Failure(ModelsEmpty)
    ensures |models| > MaxModelsSupported ==> r == Failure(TooManyModels)
    ensures r.Success? <==> 1 <= |models| <= MaxModelsSupported
    ensures r.Success? ==> r.value.models == models && r.value.layout == layoutRes && r.value.id == models[0].id
    ensures r.Success? ==> (r.value.saveViewState <==> AnySavesViewState(models))
  {
    if |models| == 0 {
      return Failure(ModelsEmpty);
    }
    if |models| > MaxModelsSupported {
      return Failure(TooManyModels);
    }
    var saveState := false;
    var i := 0;
    while i < |models|
      invariant 0 <= i <= |models|
      invariant !saveState
      invariant forall k :: 0 <= k < i ==> !models[k].saveViewState
    {
      if models[i].saveViewState {
        saveState := true;
        break;
      }
      i := i + 1;
    }
    return Success(EpoxyModelGroup(layoutRes, models[0].id, models, saveState));
  }

  /** shouldSaveViewState: by default, whether any sub-model saves its view state. */
  function ShouldSaveViewState(group: ModelGroup): (r: bool)
    ensures r <==> exists i :: 0 <= i < |group.models| && group.models[i].saveViewState
  {
    group.saveViewState
  }

  /** getSpanSize: the first sub-model's span size for the same arguments. */
  function GetSpanSize(group: ModelGroup, query: SpanQuery): (r: int)
    ensures r == group.models[0].spanSize(query)
  {
    group.models[0].spanSize(query)
  }

  /** Two groups whose first sub-models agree have the same span size, whatever their other sub-models. */
  lemma SpanSizeFollowsFirstModel(g1: ModelGroup, g2: ModelGroup, query: SpanQuery)
    requires g1.models[0].spanSize == g2.models[0].spanSize
    ensures GetSpanSize(g1, query) == GetSpanSize(g2, query)
  {
  }

  // ---------------------------------------------------------------------
  // Stub lookup
  // ---------------------------------------------------------------------

  /** getIdForIndex: the stub id of slot i; slots beyond the fifth have none. */
  function GetIdForIndex(modelIndex: int): (r: Result<int, StateError>)
    ensures r.Success? <==> 0 <= modelIndex < MaxModelsSupported
    ensures r.Failure? ==> r.error == NoStubIdForIndex(modelIndex)
  {
    match modelIndex
    case 0 => Success(ModelMixerViewStub1)
    case 1 => Success(ModelMixerViewStub2)
    case 2 => Success(ModelMixerViewStub3)
    case 3 => Success(ModelMixerViewStub4)
    case 4 => Success(ModelMixerViewStub5)
    case _ => Failure(NoStubIdForIndex(modelIndex))
  }

  /** Distinct slots have distinct stub ids. */
  lemma StubIdsDistinct(i: int, j: int)
    requires GetIdForIndex(i).Success? && GetIdForIndex(j).Success?
    requires i != j
    ensures GetIdForIndex(i).value != GetIdForIndex(j).value
  {
  }

  /** What findViewById finds under an id of the group's layout. */
  datatype ChildKind = ViewStubChild | OtherViewChild

  /** The inflated group layout, as the children findViewById can find by id. */
  type ItemLayout = map<int, ChildKind>

  /** getViewStub: the stub of slot i, or why there is none. */
  function GetViewStub(itemView: ItemLayout, i: int): (r: Result<int, StateError>)
    ensures r.Success? <==>
      (0 <= i < MaxModelsSupported && GetIdForIndex(i).value in itemView && itemView[GetIdForIndex(i).value] == ViewStubChild)
    ensures r.Success? ==> r == GetIdForIndex(i)
    ensures r.Failure? && 0 <= i < MaxModelsSupported ==>
      var id := GetIdForIndex(i).value;
      (id !in itemView ==> r.error == StubNotFound(i)) && (id in itemView ==> r.error == NotAViewStub(i))
  {
    match GetIdForIndex(i)
    case Failure(e) => Failure(e)
    case Success(id) =>
      if id !in itemView then Failure(StubNotFound(i))
      else if itemView[id] == ViewStubChild then Success(id)
      else Failure(NotAViewStub(i))
  }

  /** The first slot below n, from slot i on, whose stub lookup fails; n when there is none. */
  function FirstMissingStub(itemView: ItemLayout, i: nat, n: nat): (r: nat)
    requires i <= n
    ensures i <= r <= n
    ensures forall k :: i <= k < r ==> GetViewStub(itemView, k).Success?
    ensures r < n ==> GetViewStub(itemView, r).Failure?
    decreases n - i
  {
    if i == n then n
    else if GetViewStub(itemView, i).Failure? then i
    else FirstMissingStub(itemView, i + 1, n)
  }

  // ---------------------------------------------------------------------
  // The group's holder
  // ---------------------------------------------------------------------

  /** The visibility setViewVisibility gives a slot's view. */
  datatype Visibility = Visible | Gone

  function VisibilityFor(model: EpoxyModel): Visibility {
    if model.shown then Visible else Gone
  }

  /** The view slot i's sub-model is inflated into. */
  function InflatedViewFor(stubId: int, model: EpoxyModel): View {
    InflatedView(stubId, model.layout)
  }

  /**
   * The group's Holder: one view per slot and, per slot, the helper holder of
   * a sub-model with a holder. The visibility setViewVisibility last gave
   * each slot's view is kept per slot (absent: as inflated).
   */
  class GroupHolder {
    var views: seq<View>
    var holders: seq<EpoxyHolder?>
    var visibility: map<nat, Visibility>

    constructor()
      ensures Valid()
      ensures views == [] && holders == [] && visibility == map[]
    {
      views := [];
      holders := [];
      visibility := map[];
    }

    /** Views and helper holders are parallel lists; a visibility is recorded only for a view that exists. */
    ghost predicate Valid()
      reads this
    {
      |views| == |holders| && (forall k :: k in visibility ==> k < |views|)
    }

    /** bindView has run to completion for the group's sub-models. */
    ghost predicate BoundTo(group: ModelGroup)
      reads this
    {
      Valid() && |views| == |group.models|
      && (forall i :: 0 <= i < |holders| ==> (holders[i] == null <==> !group.models[i].withHolder))
    }

    /**
     * bindView: for each slot in order, find its stub, inflate the sub-model's
     * layout into it and, for a sub-model with a holder, create and bind its
     * holder. A missing or wrong stub stops the loop with the slots before it
     * built.
     */
    method BindView(group: ModelGroup, itemView: ItemLayout) returns (outcome: Outcome<StateError>)
      modifies this
      ensures Valid()
      ensures var n := FirstMissingStub(itemView, 0, |group.models|);
        |views| == |holders| == n
        && outcome == (if n < |group.models| then Fail(GetViewStub(itemView, n).error) else Pass)
      ensures outcome.Pass? ==> BoundTo(group)
      ensures forall i :: 0 <= i < |views| ==>
        views[i] == InflatedViewFor(GetIdForIndex(i).value, group.models[i])
      ensures forall i :: 0 <= i < |holders| ==>
        (holders[i] == null <==> !group.models[i].withHolder)
        && (holders[i] != null ==> fresh(holders[i]) && holders[i].view == Some(views[i]))
      ensures visibility == map[]
    {
      var models := group.models;
      views := [];
      holders := [];
      visibility := map[];
      for i := 0 to |models|
        invariant |views| == |holders| == i
        invariant forall k :: 0 <= k < i ==> GetViewStub(itemView, k).Success?
        invariant forall k :: 0 <= k < i ==> views[k] == InflatedViewFor(GetIdForIndex(k).value, models[k])
        invariant forall k :: 0 <= k < i ==>
          (holders[k] == null <==> !models[k].withHolder)
          && (holders[k] != null ==> fresh(holders[k]) && holders[k].view == Some(views[k]))
        invariant visibility == map[]
      {
        var stub := GetViewStub(itemView, i);
        if stub.Failure? {
          FirstMissingStubAt(itemView, i, |models|);
          return Fail(stub.error);
        }
        var view, holder := InflateSlot(stub.value, models[i]);
        holders := holders + [holder];
        views := views + [view];
      }
      FirstMissingStubAt(itemView, |models|, |models|);
      outcome := Pass;
    }
  }

  /**
   * One slot of bindView: inflate the sub-model's layout into the stub and,
   * for a sub-model with a holder, create its holder and bind it to the view.
   */
  method InflateSlot(stubId: int, model: EpoxyModel) returns (view: View, holder: EpoxyHolder?)
    ensures view == InflatedViewFor(stubId, model)
    ensures holder == null <==> !model.withHolder
    ensures holder != null ==> fresh(holder) && holder.view == Some(view)
  {
    view := InflatedViewFor(stubId, model);
    if model.withHolder {
      holder := new EpoxyHolder();
      holder.BindView(view);
    } else {
      holder := null;
    }
  }

  /** When every slot below i has its stub and slot i (or the end) is reached, the first missing stub is there. */
  lemma {:induction false} FirstMissingStubAt(itemView: ItemLayout, i: nat, n: nat)
    requires i <= n
    requires forall k :: 0 <= k < i ==> GetViewStub(itemView, k).Success?
    requires i < n ==> GetViewStub(itemView, i).Failure?
    ensures FirstMissingStub(itemView, 0, n) == i
  {
    FirstMissingStubFrom(itemView, 0, i, n);
  }

  lemma {:induction false} FirstMissingStubFrom(itemView: ItemLayout, j: nat, i: nat, n: nat)
    requires j <= i <= n
    requires forall k :: j <= k < i ==> GetViewStub(itemView, k).Success?
    requires i < n ==> GetViewStub(itemView, i).Failure?
    ensures FirstMissingStub(itemView, j, n) == i
    decreases i - j
  {
    if j < i {
      FirstMissingStubFrom(itemView, j + 1, i, n);
    }
  }

  // ---------------------------------------------------------------------
  // Dispatch to the sub-models
  // ---------------------------------------------------------------------

  /** The anonymous callbacks iterateModels is driven with. */
  datatype GroupCallback =
    | BindCallback
    | BindWithPayloadsCallback(payloads: seq<Payload>)
    | UnbindCallback
    | AttachedCallback
    | DetachedCallback

  /** The callbacks that set the views' visibility (the two bind overloads). */
  predicate SetsVisibility(callback: GroupCallback) {
    callback.BindCallback? || callback.BindWithPayloadsCallback?
  }

  /**
   * What iterateModels does to one slot: the bind callbacks set the slot
   * view's visibility, and onModel may make a call on the slot's sub-model.
   */
  datatype SlotEvent =
    | VisibilitySet(slot: nat, visibility: Visibility)
    | ModelCalled(slot: nat, call: Call)

  /** objectToBind of iterateModels: the slot's helper holder (null if the holder has none) for a sub-model with a holder, else its view. */
  function ObjectToBind(model: EpoxyModel, view: View, holder: EpoxyHolder?): BoundObject {
    if model.withHolder then HolderObject(holder) else ViewObject(view)
  }

  /** The call onModel makes on a sub-model, if any: the bind callbacks skip hidden sub-models. */
  function OnModelCall(callback: GroupCallback, model: EpoxyModel): Option<CallKind> {
    match callback
    case BindCallback => if model.shown then Some(BindCall) else None
    case BindWithPayloadsCallback(payloads) => if model.shown then Some(BindWithPayloadsCall(payloads)) else None
    case UnbindCallback => Some(UnbindCall)
    case AttachedCallback => Some(AttachedCall)
    case DetachedCallback => Some(DetachedCall)
  }

  /**
   * The slots iterateModels gets through: every sub-model's, unless the
   * holder (built by a group with fewer sub-models) runs out of views first.
   */
  function SlotsReached(group: ModelGroup, views: seq<View>): (n: nat)
    ensures n <= |group.models| && n <= |views|
    ensures n == |group.models| || n == |views|
  {
    if |group.models| <= |views| then |group.models| else |views|
  }

  /** What iterateModels does on the first n slots, in slot order. */
  function Dispatch(models: seq<EpoxyModel>, views: seq<View>, holders: seq<EpoxyHolder?>, callback: GroupCallback, n: nat): seq<SlotEvent>
    requires n <= |models| && n <= |views| == |holders|
  {
    if n == 0 then []
    else Dispatch(models, views, holders, callback, n - 1) + SlotEvents(models, views, holders, callback, n - 1)
  }

  /** An event of slot e.slot is what onModel does there: the visibility its sub-model calls for, or its call with the slot's object to bind. */
  ghost predicate FitsSlot(models: seq<EpoxyModel>, views: seq<View>, holders: seq<EpoxyHolder?>, callback: GroupCallback, e: SlotEvent)
    requires e.slot < |models| && e.slot < |views| == |holders|
  {
    && (e.VisibilitySet? ==> SetsVisibility(callback) && e.visibility == VisibilityFor(models[e.slot]))
    && (e.ModelCalled? ==>
          OnModelCall(callback, models[e.slot]) == Some(e.call.kind)
          && e.call.target == ObjectToBind(models[e.slot], views[e.slot], holders[e.slot]))
  }

  /** What iterateModels does on slot i: the visibility first, then the call, each if the callback makes it. */
  function SlotEvents(models: seq<EpoxyModel>, views: seq<View>, holders: seq<EpoxyHolder?>, callback: GroupCallback, i: nat): (r: seq<SlotEvent>)
    requires i < |models| && i < |views| == |holders|
    ensures |r| <= 2
    ensures forall k :: 0 <= k < |r| ==> r[k].slot == i && FitsSlot(models, views, holders, callback, r[k])
    ensures |r| == 2 ==> r[0].VisibilitySet? && r[1].ModelCalled?
    ensures SetsVisibility(callback) <==> (|r| > 0 && r[0].VisibilitySet?)
    ensures OnModelCall(callback, models[i]).Some? <==> (|r| > 0 && r[|r| - 1].ModelCalled?)
  {
    var visibility := if SetsVisibility(callback) then [VisibilitySet(i, VisibilityFor(models[i]))] else [];
    var call := match OnModelCall(callback, models[i])
      case None => []
      case Some(kind) => [ModelCalled(i, Call(kind, ObjectToBind(models[i], views[i], holders[i])))];
    visibility + call
  }

  /** Every event of the trace is on a slot below n and fits that slot. */
  ghost predicate AllFit(models: seq<EpoxyModel>, views: seq<View>, holders: seq<EpoxyHolder?>, callback: GroupCallback, n: nat, events: seq<SlotEvent>)
    requires n <= |models| && n <= |views| == |holders|
  {
    forall k :: 0 <= k < |events| ==> events[k].slot < n && FitsSlot(models, views, holders, callback, events[k])
  }

  /** Slots never go back along the trace, and within one slot the visibility comes before the call. */
  ghost predicate InSlotOrder(events: seq<SlotEvent>) {
    forall a, b :: 0 <= a < b < |events| ==>
      events[a].slot < events[b].slot
      || (events[a].slot == events[b].slot && events[a].VisibilitySet? && events[b].ModelCalled?)
  }

  /** The trace holds a call on the sub-model of slot s. */
  ghost predicate Reaches(events: seq<SlotEvent>, s: nat) {
    exists k :: 0 <= k < |events| && events[k].ModelCalled? && events[k].slot == s
  }

  /** Every call on a sub-model comes right after its slot's view was made visible. */
  ghost predicate ShownBeforeCalled(events: seq<SlotEvent>) {
    forall k :: 0 <= k < |events| && events[k].ModelCalled? ==>
      0 < k && events[k - 1] == VisibilitySet(events[k].slot, Visible)
  }

  /**
   * Every event of the trace is on a slot below n and is what onModel does
   * there: the visibility the slot's sub-model calls for, or the call onModel
   * makes with the slot's object to bind; slots never go back, and within a
   * slot the visibility comes first.
   */
  lemma {:induction false} DispatchCallsInSlotOrder(models: seq<EpoxyModel>, views: seq<View>, holders: seq<EpoxyHolder?>, callback: GroupCallback, n: nat)
    requires n <= |models| && n <= |views| == |holders|
    ensures AllFit(models, views, holders, callback, n, Dispatch(models, views, holders, callback, n))
    ensures InSlotOrder(Dispatch(models, views, holders, callback, n))
  {
    if n > 0 {
      var i := n - 1;
      var prefix := Dispatch(models, views, holders, callback, i);
      var last := SlotEvents(models, views, holders, callback, i);
      var events := Dispatch(models, views, holders, callback, n);
      assert events == prefix + last;
      DispatchCallsInSlotOrder(models, views, holders, callback, i);
      forall k | 0 <= k < |events|
        ensures events[k].slot < n && FitsSlot(models, views, holders, callback, events[k])
      {
        if k < |prefix| {
          assert events[k] == prefix[k];
        } else {
          assert events[k] == last[k - |prefix|];
        }
      }
      forall a, b | 0 <= a < b < |events|
        ensures events[a].slot < events[b].slot
          || (events[a].slot == events[b].slot && events[a].VisibilitySet? && events[b].ModelCalled?)
      {
        if b < |prefix| {
          assert events[a] == prefix[a] && events[b] == prefix[b];
        } else if a < |prefix| {
          assert events[a] == prefix[a] && events[b] == last[b - |prefix|];
        } else {
          assert events[a] == last[a - |prefix|] && events[b] == last[b - |prefix|];
        }
      }
    }
  }

  /** A call on slot s lies in a concatenated trace iff it lies in one of the two parts. */
  lemma ReachesAppend(prefix: seq<SlotEvent>, last: seq<SlotEvent>, s: nat)
    ensures Reaches(prefix + last, s) <==> Reaches(prefix, s) || Reaches(last, s)
  {
    var events := prefix + last;
    if Reaches(events, s) {
      var k :| 0 <= k < |events| && events[k].ModelCalled? && events[k].slot == s;
      if k >= |prefix| {
        assert last[k - |prefix|] == events[k];
      }
    }
    if Reaches(prefix, s) {
      var k :| 0 <= k < |prefix| && prefix[k].ModelCalled? && prefix[k].slot == s;
      assert events[k] == prefix[k];
    }
    if Reaches(last, s) {
      var k :| 0 <= k < |last| && last[k].ModelCalled? && last[k].slot == s;
      assert events[|prefix| + k] == last[k];
    }
  }

  /** A slot below n is called in the trace exactly when onModel makes a call for its sub-model. */
  lemma {:induction false} DispatchReachesSlot(models: seq<EpoxyModel>, views: seq<View>, holders: seq<EpoxyHolder?>, callback: GroupCallback, n: nat, s: nat)
    requires n <= |models| && n <= |views| == |holders|
    requires s < n
    ensures Reaches(Dispatch(models, views, holders, callback, n), s) <==> OnModelCall(callback, models[s]).Some?
  {
    var i := n - 1;
    var prefix := Dispatch(models, views, holders, callback, i);
    var last := SlotEvents(models, views, holders, callback, i);
    ReachesAppend(prefix, last, s);
    if s < i {
      DispatchReachesSlot(models, views, holders, callback, i, s);
      assert !Reaches(last, s);
    } else {
      DispatchCallsInSlotOrder(models, views, holders, callback, i);
      assert !Reaches(prefix, s);
      if OnModelCall(callback, models[s]).Some? {
        assert last[|last| - 1].slot == s;
      }
    }
  }

  /** unbind, attach and detach call every slot's sub-model once, in index order, and change no visibility. */
  lemma {:induction false} DispatchReachesEverySlot(models: seq<EpoxyModel>, views: seq<View>, holders: seq<EpoxyHolder?>, callback: GroupCallback, n: nat)
    requires n <= |models| && n <= |views| == |holders|
    requires !SetsVisibility(callback)
    ensures var events := Dispatch(models, views, holders, callback, n);
      |events| == n && forall k :: 0 <= k < n ==> events[k].ModelCalled? && events[k].slot == k
  {
    if n > 0 {
      DispatchReachesEverySlot(models, views, holders, callback, n - 1);
      assert OnModelCall(callback, models[n - 1]).Some?;
    }
  }

  /** The bind callbacks call a slot's sub-model exactly when it is shown. */
  lemma BindReachesShownSlots(models: seq<EpoxyModel>, views: seq<View>, holders: seq<EpoxyHolder?>, callback: GroupCallback, n: nat, s: nat)
    requires n <= |models| && n <= |views| == |holders|
    requires SetsVisibility(callback)
    requires s < n
    ensures Reaches(Dispatch(models, views, holders, callback, n), s) <==> models[s].shown
  {
    DispatchReachesSlot(models, views, holders, callback, n, s);
  }

  /** The bind callbacks make a slot's view visible immediately before they bind its sub-model. */
  lemma {:induction false} DispatchShowsBeforeBind(models: seq<EpoxyModel>, views: seq<View>, holders: seq<EpoxyHolder?>, callback: GroupCallback, n: nat)
    requires n <= |models| && n <= |views| == |holders|
    requires SetsVisibility(callback)
    ensures ShownBeforeCalled(Dispatch(models, views, holders, callback, n))
  {
    if n > 0 {
      var i := n - 1;
      var prefix := Dispatch(models, views, holders, callback, i);
      var last := SlotEvents(models, views, holders, callback, i);
      var events := Dispatch(models, views, holders, callback, n);
      assert events == prefix + last;
      DispatchShowsBeforeBind(models, views, holders, callback, i);
      forall k | 0 <= k < |events| && events[k].ModelCalled?
        ensures 0 < k && events[k - 1] == VisibilitySet(events[k].slot, Visible)
      {
        if k < |prefix| {
          assert events[k] == prefix[k] && events[k - 1] == prefix[k - 1];
        } else {
          assert events[k] == last[k - |prefix|];
          assert k - |prefix| == 1;
          assert events[k - 1] == last[0];
        }
      }
    }
  }

  /** The first n slots have the visibility their sub-models call for; every other slot keeps the one it had before. */
  ghost predicate VisibilityAfter(before: map<nat, Visibility>, visibility: map<nat, Visibility>, models: seq<EpoxyModel>, n: nat)
    requires n <= |models|
  {
    && (forall k :: 0 <= k < n ==> k in visibility && visibility[k] == VisibilityFor(models[k]))
    && (forall k :: k in before ==> k in visibility)
    && (forall k :: k in visibility && n <= k ==> k in before && visibility[k] == before[k])
  }

  lemma SetVisibilityStep(before: map<nat, Visibility>, visibility: map<nat, Visibility>, models: seq<EpoxyModel>, i: nat)
    requires i < |models| && VisibilityAfter(before, visibility, models, i)
    ensures VisibilityAfter(before, visibility[i := VisibilityFor(models[i])], models, i + 1)
  {
  }

  /**
   * onModel of the callback, for slot i: the bind callbacks first set the
   * slot's visibility from whether the sub-model is shown; then the callback
   * makes its call, if any, on the object to bind.
   */
  method OnModel(holder: GroupHolder, callback: GroupCallback, ghost models: seq<EpoxyModel>, i: nat, model: EpoxyModel, objectToBind: BoundObject)
    returns (slotEvents: seq<SlotEvent>)
    requires holder.Valid() && i < |holder.views| && i < |models| && models[i] == model
    requires objectToBind == ObjectToBind(model, holder.views[i], holder.holders[i])
    modifies holder
    ensures holder.Valid() && holder.views == old(holder.views) && holder.holders == old(holder.holders)
    ensures holder.visibility == if SetsVisibility(callback) then old(holder.visibility)[i := VisibilityFor(model)] else old(holder.visibility)
    ensures slotEvents == SlotEvents(models, holder.views, holder.holders, callback, i)
  {
    slotEvents := [];
    if SetsVisibility(callback) {
      holder.visibility := holder.visibility[i := VisibilityFor(model)];
      slotEvents := [VisibilitySet(i, VisibilityFor(model))];
    }
    var kind := OnModelCall(callback, model);
    if kind.Some? {
      slotEvents := slotEvents + [ModelCalled(i, Call(kind.value, objectToBind))];
    }
  }

  /** iterateModels reads the view of each slot; a holder with fewer views than the group has sub-models throws at the first missing one. */
  datatype IterateError = ViewIndexOutOfBounds(index: nat)

  /**
   * iterateModels: walk the group's slots in order and run the callback on
   * each sub-model with its object to bind; the bind callbacks first set the
   * slot's visibility from whether the sub-model is shown. The holder may
   * come from another group with the same layout: its views are read by
   * index, and the walk stops with an error at the first slot it has no
   * view for.
   */
  method IterateModels(group: ModelGroup, holder: GroupHolder, callback: GroupCallback)
    returns (events: seq<SlotEvent>, outcome: Outcome<IterateError>)
    requires holder.Valid()
    modifies holder
    ensures holder.Valid() && holder.views == old(holder.views) && holder.holders == old(holder.holders)
    ensures outcome == if |group.models| <= |holder.views| then Pass else Fail(ViewIndexOutOfBounds(|holder.views|))
    ensures events == Dispatch(group.models, holder.views, holder.holders, callback, SlotsReached(group, holder.views))
    ensures SetsVisibility(callback) ==>
      VisibilityAfter(old(holder.visibility), holder.visibility, group.models, SlotsReached(group, holder.views))
    ensures !SetsVisibility(callback) ==> holder.visibility == old(holder.visibility)
  {
    var models, views, holders := group.models, holder.views, holder.holders;
    ghost var before := holder.visibility;
    events := [];
    for i := 0 to |models|
      invariant i <= |views|
      invariant holder.views == views && holder.holders == holders
      invariant forall k :: k in holder.visibility ==> k < |views|
      invariant events == Dispatch(models, views, holders, callback, i)
      invariant SetsVisibility(callback) ==> VisibilityAfter(before, holder.visibility, models, i)
      invariant !SetsVisibility(callback) ==> holder.visibility == before
    {
      var model := models[i];
      if i == |views| {
        return events, Fail(ViewIndexOutOfBounds(i));
      }
      var view := views[i];
      var epoxyHolder := holders[i];
      var objectToBind := ObjectToBind(model, view, epoxyHolder);
      ghost var visibility := holder.visibility;
      var slotEvents := OnModel(holder, callback, models, i, model, objectToBind);
      events := events + slotEvents;
      if SetsVisibility(callback) {
        SetVisibilityStep(before, visibility, models, i);
      }
    }
    outcome := Pass;
  }

  /** bind(holder): show or hide each slot's view and bind the shown sub-models. */
  method Bind(group: ModelGroup, holder: GroupHolder) returns (events: seq<SlotEvent>, outcome: Outcome<IterateError>)
    requires holder.Valid()
    modifies holder
    ensures holder.Valid() && holder.views == old(holder.views) && holder.holders == old(holder.holders)
    ensures outcome == if |group.models| <= |holder.views| then Pass else Fail(ViewIndexOutOfBounds(|holder.views|))
    ensures events == Dispatch(group.models, holder.views, holder.holders, BindCallback, SlotsReached(group, holder.views))
    ensures VisibilityAfter(old(holder.visibility), holder.visibility, group.models, SlotsReached(group, holder.views))
  {
    events, outcome := IterateModels(group, holder, BindCallback);
  }

  /** bind(holder, payloads): as bind, passing the payloads to each shown sub-model. */
  method BindWithPayloads(group: ModelGroup, holder: GroupHolder, payloads: seq<Payload>) returns (events: seq<SlotEvent>, outcome: Outcome<IterateError>)
    requires holder.Valid()
    modifies holder
    ensures holder.Valid() && holder.views == old(holder.views) && holder.holders == old(holder.holders)
    ensures outcome == if |group.models| <= |holder.views| then Pass else Fail(ViewIndexOutOfBounds(|holder.views|))
    ensures events == Dispatch(group.models, holder.views, holder.holders, BindWithPayloadsCallback(payloads), SlotsReached(group, holder.views))
    ensures VisibilityAfter(old(holder.visibility), holder.visibility, group.models, SlotsReached(group, holder.views))
  {
    events, outcome := IterateModels(group, holder, BindWithPayloadsCallback(payloads));
  }

  /** unbind(holder): unbind every sub-model, shown or not; no view changes. */
  method Unbind(group: ModelGroup, holder: GroupHolder) returns (events: seq<SlotEvent>, outcome: Outcome<IterateError>)
    requires holder.Valid()
    modifies holder
    ensures holder.Valid() && holder.views == old(holder.views) && holder.holders == old(holder.holders)
    ensures holder.visibility == old(holder.visibility)
    ensures outcome == if |group.models| <= |holder.views| then Pass else Fail(ViewIndexOutOfBounds(|holder.views|))
    ensures events == Dispatch(group.models, holder.views, holder.holders, UnbindCallback, SlotsReached(group, holder.views))
  {
    events, outcome := IterateModels(group, holder, UnbindCallback);
  }

  /** onViewAttachedToWindow(holder): notify every sub-model. */
  method OnViewAttachedToWindow(group: ModelGroup, holder: GroupHolder) returns (events: seq<SlotEvent>, outcome: Outcome<IterateError>)
    requires holder.Valid()
    modifies holder
    ensures holder.Valid() && holder.views == old(holder.views) && holder.holders == old(holder.holders)
    ensures holder.visibility == old(holder.visibility)
    ensures outcome == if |group.models| <= |holder.views| then Pass else Fail(ViewIndexOutOfBounds(|holder.views|))
    ensures events == Dispatch(group.models, holder.views, holder.holders, AttachedCallback, SlotsReached(group, holder.views))
  {
    events, outcome := IterateModels(group, holder, AttachedCallback);
  }

  /** onViewDetachedFromWindow(holder): notify every sub-model. */
  method OnViewDetachedFromWindow(group: ModelGroup, holder: GroupHolder) returns (events: seq<SlotEvent>, outcome: Outcome<IterateError>)
    requires holder.Valid()
    modifies holder
    ensures holder.Valid() && holder.views == old(holder.views) && holder.holders == old(holder.holders)
    ensures holder.visibility == old(holder.visibility)
    ensures outcome == if |group.models| <= |holder.views| then Pass else Fail(ViewIndexOutOfBounds(|holder.views|))
    ensures events == Dispatch(group.models, holder.views, holder.holders, DetachedCallback, SlotsReached(group, holder.views))
  {
    events, outcome := IterateModels(group, holder, DetachedCallback);
  }

  /**
   * A view holder keeps its group holder for every later model with the same
   * layout. A holder built for a one-model group and then given to a
   * two-model group with that layout unbinds the first sub-model, then has
   * no view for the second and fails.
   */
  method ReusedHolderRunsOutOfViews() returns (events: seq<SlotEvent>, outcome: Outcome<IterateError>)
    ensures |events| == 1 && events[0].ModelCalled? && events[0].slot == 0 && events[0].call.kind == UnbindCall
    ensures outcome == Fail(ViewIndexOutOfBounds(1))
  {
    var first := EpoxyModel(10, 100, true, false, false, q => 1);
    var second := EpoxyModel(11, 101, true, false, false, q => 1);
    var one: ModelGroup := EpoxyModelGroup(7, 10, [first], false);
    var two: ModelGroup := EpoxyModelGroup(7, 10, [first, second], false);
    var layout: ItemLayout := map[ModelMixerViewStub1 := ViewStubChild, ModelMixerViewStub2 := ViewStubChild];
    var holder := new GroupHolder();
    var built := holder.BindView(one, layout);
    assert GetViewStub(layout, 0).Success?;
    events, outcome := Unbind(two, holder);
  }
}
