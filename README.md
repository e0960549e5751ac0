# Epoxy core, modelled in Dafny

This project models three pieces of the Epoxy list-adapter library and proves properties of them.

- **The adapter-helper annotation processor** (`AdapterHelperProcessor`). One compilation round runs three passes:
  - **collect** groups every `@AutoModel` field under its enclosing adapter class, in an insertion-ordered map;
  - **resolve** rewrites every field type name without a dot to the first already-generated model name ending in `"." + name`;
  - **generate** writes one `<Adapter>_EpoxyHelper` class per adapter. Its `buildAutoModels` method assigns `new Type().id(n)` to each field, with ids `-1, -2, ...`.

  The three passes are modelled twice:
  - as specification functions on values, in `AdapterHelperSpec` (`Collect`, `ResolveGroups`, `GeneratedFiles`, `ProcessRound`);
  - as the processor itself, in `AdapterHelperProcessing`: classes whose methods fill the map in place, overwrite type names in place, and append to the written files and the error log.

  Every method of the processor is proved against the specification functions. The lemmas about those functions give the properties that matter:
  - grouping by class;
  - order of first appearance;
  - fields kept in the order seen;
  - resolution picks the first match and is idempotent;
  - the ids of each helper;
  - failures are isolated.
- **The model group** (`EpoxyModelGroup`). Its constructor accepts one to five sub-models. The group's `Holder` inflates each sub-model into the view stub of its slot. `bind`, `unbind`, attach and detach walk the sub-models in slot order through `iterateModels`.
  - The group's own state is a value (`ModelGroups.ModelGroup`). Its holder is a class (`ModelGroups.GroupHolder`).
  - What `iterateModels` does to each slot is returned as a trace of `SlotEvent`s: a visibility change or a call on the sub-model. Lemmas about `Dispatch` state which slots each callback reaches, in which order, and that a bind call comes right after its view is made visible.
  - The holder may have been built by another group with the same layout, because a view holder keeps its helper holder. `iterateModels` reads its views by index and fails at the first slot it has no view for.
- **The view holder** (`EpoxyViewHolder`). It is a class with the three fields the source mutates:
  - the bound model;
  - the payloads;
  - a helper holder that is created lazily, at most once.

  The call it makes on the bound model is returned from `Bind` and `Unbind`.

Java exceptions become values:
- `Outcome` for a void method that may throw;
- `Result` for a method that returns a value or throws;
- the error logger is a `seq` of `ProcessorError`s on the processor.

The helper's name is the adapter class's whole name inside its package, with `.` replaced by `$`, followed by `_EpoxyHelper` (so a nested class `Outer.Inner` gets `Outer$Inner_EpoxyHelper`).

Files:
- `wrappers.dfy`: `Option`, `Result`, `Outcome`.
- `adapter_helper_spec.dfy`: the processor's values, its specification functions and their lemmas.
- `adapter_helper_processing.dfy`: the processor's classes and methods.
- `epoxy_models.dfy`: the runtime values (models, views, payloads, bound objects, calls, state errors).
- `model_groups.dfy`: the model group.
- `view_holders.dfy`: the view holder.

## Model

Source paths are relative to the repository root.

| member | source | states |
|---|---|---|
| AdapterHelperSpec.CollectGroupsByClass | epoxy-processor/src/main/java/com/airbnb/epoxy/AdapterHelperProcessor.java:109-114 | The collect pass gives each class that has a field exactly one entry; entries come in the order their class's first field was seen; each entry lists exactly that class's fields in the order seen (an entry is created only for the first field of its class, getOrCreateTargetClass lines 129-146, and addModel appends, lines 208-210) |
| AdapterHelperSpec.CollectSkipsFailedField | epoxy-processor/src/main/java/com/airbnb/epoxy/AdapterHelperProcessor.java:48-54 | A field whose cast to its enclosing class fails is skipped: the map after collecting with it equals the map without it, whatever comes before and after |
| AdapterHelperSpec.MatchIndex | epoxy-processor/src/main/java/com/airbnb/epoxy/AdapterHelperProcessor.java:95-107 | The position of the first generated model name, in list order, that ends with "." + the short name: every earlier name does not match; the list's length when none matches |
| AdapterHelperSpec.ResolvedTypeNameSpec | epoxy-processor/src/main/java/com/airbnb/epoxy/AdapterHelperProcessor.java:76-78 | A type name containing '.' is never changed; otherwise the result is the name itself or a generated name ending in "." + the name; either way the result is qualified or unchanged (hasFullyQualifiedName, lines 87-89) |
| AdapterHelperSpec.ResolveGroups | epoxy-processor/src/main/java/com/airbnb/epoxy/AdapterHelperProcessor.java:70-81 | The resolve pass keeps every entry and its adapter in place and resolves each field of each entry |
| AdapterHelperSpec.ResolveModels | epoxy-processor/src/main/java/com/airbnb/epoxy/AdapterHelperProcessor.java:75-79 | The resolve pass over one class keeps the number and order of the fields and resolves each field |
| AdapterHelperSpec.ResolveIdempotent | epoxy-processor/src/main/java/com/airbnb/epoxy/AdapterHelperProcessor.java:76-78 | Resolving a resolved type name again gives the same name |
| AdapterHelperSpec.ResolveGroupsIdempotent | epoxy-processor/src/main/java/com/airbnb/epoxy/AdapterHelperProcessor.java:70-81 | Running the whole resolve pass a second time changes nothing |
| AdapterHelperSpec.ReplaceDots | epoxy-processor/src/main/java/com/airbnb/epoxy/AdapterHelperProcessor.java:217 | String.replace('.', '$'): same length, each '.' becomes '$', every other character is kept |
| AdapterHelperSpec.GeneratedClassNameSpec | epoxy-processor/src/main/java/com/airbnb/epoxy/AdapterHelperProcessor.java:212-220 | The helper is in the adapter's package; its simple name is the adapter's name inside the package with every '.' turned into '$', followed by "_EpoxyHelper", and contains no '.' |
| AdapterHelperSpec.GeneratedClassNameAsWrittenInNamedPackage | epoxy-processor/src/main/java/com/airbnb/epoxy/AdapterHelperProcessor.java:212-220 | In a named package, dropping the package name's length plus one characters of the qualified name gives the intended helper name |
| AdapterHelperSpec.GeneratedClassNameAsWrittenInUnnamedPackage | epoxy-processor/src/main/java/com/airbnb/epoxy/AdapterHelperProcessor.java:212-220 | In the unnamed package the code as written names the helper of class `Ab` `b_EpoxyHelper`, where `Ab_EpoxyHelper` is intended |
| AdapterHelperSpec.ModelStatementsIds | epoxy-processor/src/main/java/com/airbnb/epoxy/AdapterHelperProcessor.java:187-190 | With the counter starting at `id`, the k-th statement assigns the k-th field, with its type, the id `id - k` |
| AdapterHelperSpec.GeneratedFilesMembers | epoxy-processor/src/main/java/com/airbnb/epoxy/AdapterHelperProcessor.java:148-156 | A file is written exactly when it is the helper of some entry and the filer accepts it: a failed write does not stop the other entries |
| AdapterHelperSpec.ProcessRoundFiles | epoxy-processor/src/main/java/com/airbnb/epoxy/AdapterHelperProcessor.java:45-59 | A round writes exactly the helpers of the classes that have fields and whose file the filer accepts; each helper lists its class's fields in the order seen, with resolved types and ids -1, -2, ... |
| AdapterHelperSpec.HelperStatementIds | epoxy-processor/src/main/java/com/airbnb/epoxy/AdapterHelperProcessor.java:187-190 | In every helper the k-th statement gives the k-th field of its class its resolved type and the id -(k + 1); the counter restarts for each class |
| AdapterHelperProcessing.AdapterClassInfo.constructor | epoxy-processor/src/main/java/com/airbnb/epoxy/AdapterHelperProcessor.java:202-206 | A new record holds its adapter type and no fields |
| AdapterHelperProcessing.AdapterClassInfo.AddModel | epoxy-processor/src/main/java/com/airbnb/epoxy/AdapterHelperProcessor.java:208-210 | addModel appends the field at the end of the record's list |
| AdapterHelperProcessing.AdapterClassMap.constructor | epoxy-processor/src/main/java/com/airbnb/epoxy/AdapterHelperProcessor.java:46 | A new map is empty and valid |
| AdapterHelperProcessing.AdapterClassMap.Get | epoxy-processor/src/main/java/com/airbnb/epoxy/AdapterHelperProcessor.java:138 | get returns the record under the key, or null when the key is absent |
| AdapterHelperProcessing.AdapterClassMap.Put | epoxy-processor/src/main/java/com/airbnb/epoxy/AdapterHelperProcessor.java:142 | put appends a new key at the end; an existing key keeps its position and gets the new record; keys stay distinct |
| AdapterHelperProcessing.AdapterHelperProcessor.constructor | epoxy-processor/src/main/java/com/airbnb/epoxy/AdapterHelperProcessor.java:38-43 | A new processor has its filer, nothing written and nothing logged |
| AdapterHelperProcessing.AdapterHelperProcessor.Process | epoxy-processor/src/main/java/com/airbnb/epoxy/AdapterHelperProcessor.java:45-59 | process appends exactly the files and errors of ProcessRound: collect all fields, then resolve all entries, then generate all entries |
| AdapterHelperProcessing.AdapterHelperProcessor.CollectAnnotatedFields | epoxy-processor/src/main/java/com/airbnb/epoxy/AdapterHelperProcessor.java:46-54 | The collect loop builds a fresh map whose entries are Collect(fields) and logs CollectErrors(fields), in field order |
| AdapterHelperProcessing.AdapterHelperProcessor.TryAddFieldToAdapterClass | epoxy-processor/src/main/java/com/airbnb/epoxy/AdapterHelperProcessor.java:49-53 | One iteration: a field of a class is filed under it; otherwise the map is unchanged and the caught exception is logged |
| AdapterHelperProcessing.AdapterHelperProcessor.ResolveGeneratedModelNames | epoxy-processor/src/main/java/com/airbnb/epoxy/AdapterHelperProcessor.java:70-81 | The resolve pass rewrites the records in place, keeps keys and records, and leaves entries equal to ResolveGroups of the entries before |
| AdapterHelperProcessing.AdapterHelperProcessor.ResolveAdapterModels | epoxy-processor/src/main/java/com/airbnb/epoxy/AdapterHelperProcessor.java:75-79 | The inner loop leaves the record's fields equal to ResolveModels of its fields before |
| AdapterHelperProcessing.AdapterHelperProcessor.GetFullyQualifiedModelTypeName | epoxy-processor/src/main/java/com/airbnb/epoxy/AdapterHelperProcessor.java:95-107 | Returns the generated name at MatchIndex, the first match in list order, or the field's own type name when nothing matches |
| AdapterHelperProcessing.AdapterHelperProcessor.AddFieldToAdapterClass | epoxy-processor/src/main/java/com/airbnb/epoxy/AdapterHelperProcessor.java:109-114 | A field of a class extends the map as AddField does (new class at the end, field at the end of its entry) and logs the validators' errors; a field outside a class throws and changes nothing |
| AdapterHelperProcessing.AdapterHelperProcessor.AddModelToEntry | epoxy-processor/src/main/java/com/airbnb/epoxy/AdapterHelperProcessor.java:113 | addModel on the record at an index extends that entry alone; keys and records stay |
| AdapterHelperProcessing.AdapterHelperProcessor.GetOrCreateTargetClass | epoxy-processor/src/main/java/com/airbnb/epoxy/AdapterHelperProcessor.java:129-146 | Logs the diff-adapter check, then returns the class's record; a record is created and put at the end only when the class has none |
| AdapterHelperProcessing.AdapterHelperProcessor.BuildFieldInfo | epoxy-processor/src/main/java/com/airbnb/epoxy/AdapterHelperProcessor.java:116-127 | Logs the accessibility check, then the model-type check, and returns the field's name and type |
| AdapterHelperProcessing.AdapterHelperProcessor.GenerateJava | epoxy-processor/src/main/java/com/airbnb/epoxy/AdapterHelperProcessor.java:148-156 | Appends GeneratedFiles of the entries to the written files and GenerationErrors to the log, one entry after the other |
| AdapterHelperProcessing.AdapterHelperProcessor.GenerateHelperClassForAdapter | epoxy-processor/src/main/java/com/airbnb/epoxy/AdapterHelperProcessor.java:158-175 | Writes the entry's HelperFile when the filer accepts it and otherwise fails with the write error |
| AdapterHelperProcessing.AdapterHelperProcessor.BuildModelsMethod | epoxy-processor/src/main/java/com/airbnb/epoxy/AdapterHelperProcessor.java:177-193 | One statement per field in order; the k-th assigns the k-th field a new instance of its type with id -(k + 1) |
| AdapterHelperProcessing.AdapterHelperProcessor.WriteTo | epoxy-processor/src/main/java/com/airbnb/epoxy/AdapterHelperProcessor.java:172-174 | The filer keeps the file, or refuses it with a write error and keeps nothing |
| ModelGroups.NewModelGroup | epoxy-adapter/src/main/java/com/airbnb/epoxy/EpoxyModelGroup.java:50-73 | No sub-models: argument error; more than 5 (line 21): argument error; 1 to 5 succeed with the given models and layout, the first sub-model's id, and save-state set iff some sub-model saves state |
| ModelGroups.ShouldSaveViewState | epoxy-adapter/src/main/java/com/airbnb/epoxy/EpoxyModelGroup.java:184-189 | True exactly when some sub-model saves its view state (the flag computed at lines 64-72); `ModelGroup` holds the constructor's promises (1 to 5 sub-models, the first one's id, this flag) for every group |
| ModelGroups.GetSpanSize | epoxy-adapter/src/main/java/com/airbnb/epoxy/EpoxyModelGroup.java:172-176 | The first sub-model's span size for the same arguments |
| ModelGroups.SpanSizeFollowsFirstModel | epoxy-adapter/src/main/java/com/airbnb/epoxy/EpoxyModelGroup.java:172-176 | Groups whose first sub-models have the same span rule have the same span size, whatever their other sub-models |
| ModelGroups.GetIdForIndex | epoxy-adapter/src/main/java/com/airbnb/epoxy/EpoxyModelGroup.java:241-257 | Slots 0 to 4 have a stub id; any other index fails with a state error |
| ModelGroups.StubIdsDistinct | epoxy-adapter/src/main/java/com/airbnb/epoxy/EpoxyModelGroup.java:241-257 | Distinct slots have distinct stub ids |
| ModelGroups.GetViewStub | epoxy-adapter/src/main/java/com/airbnb/epoxy/EpoxyModelGroup.java:224-239 | Succeeds iff the slot has a stub id and the layout holds a ViewStub under it; a missing child and a child that is not a ViewStub each fail with their own state error |
| ModelGroups.FirstMissingStub | epoxy-adapter/src/main/java/com/airbnb/epoxy/EpoxyModelGroup.java:206-208 | The first slot whose stub lookup fails (every earlier slot succeeds), or the number of sub-models |
| ModelGroups.GroupHolder.constructor | epoxy-adapter/src/main/java/com/airbnb/epoxy/EpoxyModelGroup.java:191-194 | createNewHolder: a holder with no views and no helper holders |
| ModelGroups.GroupHolder.BindView | epoxy-adapter/src/main/java/com/airbnb/epoxy/EpoxyModelGroup.java:200-222 | Builds the slots in order up to the first missing stub and then fails with its error; otherwise views and holders both have one entry per sub-model, `holders[i]` is null exactly when sub-model i has no holder, and each helper holder is fresh and bound to its slot's view |
| ModelGroups.InflateSlot | epoxy-adapter/src/main/java/com/airbnb/epoxy/EpoxyModelGroup.java:209-218 | The sub-model's layout inflated into the stub, and a fresh helper holder bound to that view exactly when the sub-model has a holder |
| ModelGroups.IterateModels | epoxy-adapter/src/main/java/com/airbnb/epoxy/EpoxyModelGroup.java:156-166 | For any holder with parallel view and holder lists: the events are Dispatch over the slots reached, which is every slot when the holder has a view for each sub-model; otherwise it fails with the index of the first missing view (`holder.views.get(i)`, line 160) after handling the slots before it. The bind callbacks set the reached slots' visibility and leave other slots as they were; views and holders are unchanged |
| ModelGroups.OnModel | epoxy-adapter/src/main/java/com/airbnb/epoxy/EpoxyModelGroup.java:88-154 | onModel for one slot: the bind callbacks set the slot's visibility from whether the sub-model is shown, then the callback makes its call on the object to bind; the events are that slot's SlotEvents |
| ModelGroups.SlotEvents | epoxy-adapter/src/main/java/com/airbnb/epoxy/EpoxyModelGroup.java:88-154 | A slot's events are at most a visibility change followed by a call: the visibility exactly for the bind callbacks, the call exactly when onModel makes one, each fitting the slot |
| ModelGroups.DispatchCallsInSlotOrder | epoxy-adapter/src/main/java/com/airbnb/epoxy/EpoxyModelGroup.java:156-166 | Every event is on a reached slot and is what onModel does there: the visibility its sub-model calls for, or the call onModel makes, with the slot's helper holder (null if the holder has none) for a sub-model with a holder and its view otherwise (line 162). Slots never go back, and within a slot the visibility comes first |
| ModelGroups.DispatchReachesSlot | epoxy-adapter/src/main/java/com/airbnb/epoxy/EpoxyModelGroup.java:156-166 | A reached slot's sub-model is called in the trace iff onModel makes a call for it |
| ModelGroups.DispatchReachesEverySlot | epoxy-adapter/src/main/java/com/airbnb/epoxy/EpoxyModelGroup.java:123-154 | unbind, attach and detach call every reached slot's sub-model exactly once, in index order, shown or not, with no visibility events |
| ModelGroups.BindReachesShownSlots | epoxy-adapter/src/main/java/com/airbnb/epoxy/EpoxyModelGroup.java:87-113 | Both bind overloads call a reached slot's sub-model iff it is shown |
| ModelGroups.DispatchShowsBeforeBind | epoxy-adapter/src/main/java/com/airbnb/epoxy/EpoxyModelGroup.java:88-113 | Under both bind overloads every call on a sub-model comes immediately after its slot's view was made VISIBLE (setViewVisibility runs before model.bind, lines 92-95 and 106-109) |
| ModelGroups.Bind | epoxy-adapter/src/main/java/com/airbnb/epoxy/EpoxyModelGroup.java:87-99 | Each reached slot's visibility is set (VISIBLE if shown, GONE if not, lines 115-121) and the events are the bind dispatch; fails as IterateModels when the holder runs out of views |
| ModelGroups.BindWithPayloads | epoxy-adapter/src/main/java/com/airbnb/epoxy/EpoxyModelGroup.java:101-113 | As Bind, with the payloads passed to each bind call |
| ModelGroups.Unbind | epoxy-adapter/src/main/java/com/airbnb/epoxy/EpoxyModelGroup.java:123-132 | The unbind dispatch over the reached slots; no visibility changes; fails as IterateModels when the holder runs out of views |
| ModelGroups.OnViewAttachedToWindow | epoxy-adapter/src/main/java/com/airbnb/epoxy/EpoxyModelGroup.java:134-143 | The attach dispatch over the reached slots; no visibility changes; fails as IterateModels |
| ModelGroups.OnViewDetachedFromWindow | epoxy-adapter/src/main/java/com/airbnb/epoxy/EpoxyModelGroup.java:145-154 | The detach dispatch over the reached slots; no visibility changes; fails as IterateModels |
| ModelGroups.ReusedHolderRunsOutOfViews | epoxy-adapter/src/main/java/com/airbnb/epoxy/EpoxyModelGroup.java:156-166 | A holder built for a one-model group and reused by a two-model group with the same layout unbinds the first sub-model, then fails at index 1 where the source throws IndexOutOfBoundsException |
| ViewHolders.EpoxyViewHolder.constructor | epoxy-adapter/src/main/java/com/airbnb/epoxy/EpoxyViewHolder.java:15-17 | A new holder has its item view, no model, no payloads, no helper holder |
| ViewHolders.EpoxyViewHolder.ObjectToBind | epoxy-adapter/src/main/java/com/airbnb/epoxy/EpoxyViewHolder.java:38-40 | The helper holder if there is one, the item view otherwise |
| ViewHolders.EpoxyViewHolder.Bind | epoxy-adapter/src/main/java/com/airbnb/epoxy/EpoxyViewHolder.java:19-36 | Records the model and payloads; an existing helper holder is kept; a fresh one, bound to the item view, is created only when there was none and the model has a holder; exactly one bind call, with payloads iff they are non-empty, on objectToBind |
| ViewHolders.EpoxyViewHolder.AssertBound | epoxy-adapter/src/main/java/com/airbnb/epoxy/EpoxyViewHolder.java:60-64 | Fails with a state error iff no model is bound |
| ViewHolders.EpoxyViewHolder.Unbind | epoxy-adapter/src/main/java/com/airbnb/epoxy/EpoxyViewHolder.java:42-48 | Unbound: state error, nothing changes. Bound: one unbind call on the object to bind, then model and payloads cleared; the helper holder is kept |
| ViewHolders.EpoxyViewHolder.GetPayloads | epoxy-adapter/src/main/java/com/airbnb/epoxy/EpoxyViewHolder.java:50-53 | State error iff no model is bound; otherwise the payloads of the current bind |
| ViewHolders.EpoxyViewHolder.GetModel | epoxy-adapter/src/main/java/com/airbnb/epoxy/EpoxyViewHolder.java:55-58 | State error iff no model is bound; otherwise the bound model |
| ViewHolders.BindReadUnbind | epoxy-adapter/src/main/java/com/airbnb/epoxy/EpoxyViewHolder.java:19-58 | After bind(m, p), getModel gives m and getPayloads gives p; after unbind getModel fails again and the helper holder is unchanged |
| ViewHolders.RebindKeepsHelperHolder | epoxy-adapter/src/main/java/com/airbnb/epoxy/EpoxyViewHolder.java:22-25 | The helper holder the first bind creates for a model with a holder stays bound to the item view and is the target of the second bind's call, even for a second model without a holder |

## Findings

| source | as written | input that shows it | evidently intended | confidence | as-written member | corrected member |
|---|---|---|---|---|---|---|
| epoxy-processor/src/main/java/com/airbnb/epoxy/AdapterHelperProcessor.java:212-220 | The helper's name drops the package name's length plus one characters of the qualified name, also in the unnamed package, where the qualified name has no "package." prefix | An adapter class `Ab` in the unnamed package gets the helper `b_EpoxyHelper` | Drop the package prefix only: `Ab_EpoxyHelper` | medium, not executed | AdapterHelperSpec.GeneratedClassNameAsWrittenInUnnamedPackage | AdapterHelperSpec.GeneratedClassNameSpec |

`AdapterClassInfo.generatedClassName` uses the corrected `GeneratedClassName`. In every named package the two agree (`GeneratedClassNameAsWrittenInNamedPackage`).

## Left out

- Java source generation with JavaPoet (`TypeSpec`, `MethodSpec`, `JavaFile`) is not modelled. A generated file is a `JavaFile` value: its class name, its superclass, the adapter type it is parameterized with, and its `buildAutoModels` statements.
- The filer's I/O is not modelled. A `Filer` is the set of class names whose write throws an `IOException`.
- `javax.lang.model` is not modelled (`Element`, `TypeElement`, `Elements.getPackageOf`, `TypeName.get`). A class is its package name, its name inside the package, and the verdict of the diff-adapter check. A field is its enclosing element, its simple name and its printed type name.
- The validators (`isDiffAdapter`, `isEpoxyModel`, `validateFieldAccessibleViaGeneratedCode`) are not part of this model. Each is a boolean verdict on the element. Its only effect is one error-log entry.
- The error logger's message texts are not modelled. Each entry is a `ProcessorError` value.
- AdapterHelperProcessing.AdapterClassInfo: `AdapterModelField` objects are values inside the record's list. The in-place `typeName` overwrite replaces the list element. No field object is shared between records in the source, so no aliasing is lost.
- AdapterHelperProcessing.AdapterHelperProcessor.CollectAnnotatedFields: the first loop of `process` is its own method, so that `Process` reads as the three passes.
- Exceptions from other calls are not modelled, for example a failure inside JavaPoet or a runtime exception in a validator. Only the cast of the enclosing element and the filer's write fail.
- Android view inflation, `findViewById`, `setLayoutResource` and the concrete `R.id` values are not modelled. The item layout is a map from id to the kind of child found, and an inflated view is a value naming its stub and layout. The five stub ids are the distinct constants 1 to 5.
- ModelGroups.GroupHolder: a view's visibility is kept per slot in the holder, not on a view object. A freshly inflated view has no recorded visibility.
- Sub-models' own callbacks (`bind`, `unbind`, `onViewAttachedToWindow`, `onViewDetachedFromWindow`, `createNewHolder`, `EpoxyHolder.bindView`) are user code. Their invocation is recorded as a `Call` on a `BoundObject` and not executed. A sub-model's helper holder records the view it was bound to.
- ModelGroups.IterateModels: the holder's view and holder lists have the same length, as `bindView` always leaves them; `holders.get(i)` can therefore not fail on its own.
- `EpoxyModelGroup`'s public constructors only copy the collection or array into a list; `NewModelGroup` models the private constructor they call.
- `layout(...)` and `getDefaultLayout` are not modelled. The layout is stored in the group, and the thrown `UnsupportedOperationException` is never reached once a layout is set.
- `equals`, `hashCode` and `toString` are not modelled: they depend on superclass state and are diagnostic.
- `EpoxyModelWithView` is not modelled: it only returns layout 0 and throws from `layout(...)`.
- Ids are unbounded integers. The source's `long` ids never approach the 64-bit bounds here: at most five sub-models, and one per field for the processor's counter.
