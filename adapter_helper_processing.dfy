/**
 * The adapter-helper processor as it runs: an insertion-ordered map from
 * adapter classes to mutable per-class records, filled field by field,
 * rewritten in place by the resolve pass and read by the generate pass.
 * Every method is proved against the functions of AdapterHelperSpec.
 */
module AdapterHelperProcessing {
  import opened Wrappers
  import opened AdapterHelperSpec

  /** Everything the processor gathers about one adapter class. */
  class AdapterClassInfo {
    const adapterClassType: AdapterClass
    const generatedClassName: ClassName := GeneratedClassName(adapterClassType)
    var models: seq<ModelField>

    constructor (adapterClassElement: AdapterClass)
      ensures adapterClassType == adapterClassElement
      ensures models == []
    {
      adapterClassType := adapterClassElement;
      models := [];
    }

    method AddModel(adapterModelField: ModelField)
      modifies this
      ensures models == old(models) + [adapterModelField]
    {
      models := models + [adapterModelField];
    }
  }

  /**
   * The insertion-ordered map from adapter class to its record, as the list
   * of its entries: `keys` in insertion order and `values` the records
   * under them (the map's values() view). `entries` is the map's contents
   * as values: each class with the fields its record holds.
   */
  class AdapterClassMap {
    var keys: seq<AdapterClass>
    var values: seq<AdapterClassInfo>
    ghost var entries: seq<Group>
    ghost var Repr: set<AdapterClassInfo>

    /** Keys are distinct; each record and each entry sits under its own class. */
    ghost predicate Valid()
      reads this
    {
      && |values| == |keys| == |entries|
      && Distinct(keys)
      && (forall i :: 0 <= i < |keys| ==>
            values[i].adapterClassType == keys[i] && entries[i].adapter == keys[i] && values[i] in Repr)
    }

    /** Each entry lists exactly the fields its record holds. */
    ghost predicate Synced()
      reads this, Repr
      requires Valid()
    {
      forall i :: 0 <= i < |keys| ==> entries[i].models == values[i].models
    }

    constructor ()
      ensures Valid() && Synced()
      ensures keys == [] && values == [] && entries == [] && Repr == {}
    {
      keys := [];
      values := [];
      entries := [];
      Repr := {};
    }

    /** get: the record under `key`, or null when there is none. */
    method Get(key: AdapterClass) returns (info: AdapterClassInfo?)
      requires Valid()
      ensures key in keys ==> info == values[Position(keys, key)]
      ensures key !in keys ==> info == null
    {
      var i := Position(keys, key);
      info := if i < |keys| then values[i] else null;
    }

    /** put: a new key goes to the end; an existing key keeps its place and gets the new record. */
    method Put(key: AdapterClass, info: AdapterClassInfo)
      requires Valid() && Synced()
      requires info.adapterClassType == key
      modifies this
      ensures Valid() && Synced()
      ensures Repr == old(Repr) + {info}
      ensures key in old(keys) ==> var i := Position(old(keys), key);
        && keys == old(keys) && values == old(values)[i := info]
        && entries == old(entries)[i := Group(key, info.models)]
      ensures key !in old(keys) ==>
        && keys == old(keys) + [key] && values == old(values) + [info]
        && entries == old(entries) + [Group(key, info.models)]
    {
      var i := Position(keys, key);
      if i < |keys| {
        values := values[i := info];
        entries := entries[i := Group(key, info.models)];
      } else {
        keys := keys + [key];
        values := values + [info];
        entries := entries + [Group(key, info.models)];
      }
      Repr := Repr + {info};
    }
  }

  /**
   * The processor, with the two sinks it writes to: the files the filer
   * accepted and the error logger's messages.
   */
  class AdapterHelperProcessor {
    const filer: Filer
    var written: seq<JavaFile>
    var errors: seq<ProcessorError>

    constructor (filer: Filer)
      ensures this.filer == filer && written == [] && errors == []
    {
      this.filer := filer;
      written := [];
      errors := [];
    }

    /** One round: collect every annotated field, resolve names, generate every helper. */
    method Process(annotated: seq<FieldElement>, generatedModels: seq<string>)
      modifies this
      ensures written == old(written) + ProcessRound(annotated, generatedModels, filer).files
      ensures errors == old(errors) + ProcessRound(annotated, generatedModels, filer).errors
    {
      var adapterClassMap := CollectAnnotatedFields(annotated);
      ghost var collected := errors;
      ResolveGeneratedModelNames(adapterClassMap, generatedModels);
      ghost var groups := adapterClassMap.entries;
      GenerateJava(adapterClassMap);
      ghost var round := ProcessRound(annotated, generatedModels, filer);
      ghost var collectErrors, generationErrors := CollectErrors(annotated), GenerationErrors(groups, filer);
      assert round.files == GeneratedFiles(groups, filer);
      assert round.errors == collectErrors + generationErrors;
      AppendAssoc(old(errors), collectErrors, generationErrors);
    }

    /**
     * The first loop of process, over the annotated fields: each is filed
     * under its class in a new map, and an exception is logged and the
     * field skipped.
     */
    method CollectAnnotatedFields(annotated: seq<FieldElement>) returns (adapterClassMap: AdapterClassMap)
      modifies this
      ensures fresh(adapterClassMap) && fresh(adapterClassMap.Repr)
      ensures adapterClassMap.Valid() && adapterClassMap.Synced()
      ensures adapterClassMap.entries == Collect(annotated)
      ensures errors == old(errors) + CollectErrors(annotated)
      ensures written == old(written)
    {
      adapterClassMap := new AdapterClassMap();
      for i := 0 to |annotated|
        invariant fresh(adapterClassMap) && fresh(adapterClassMap.Repr)
        invariant adapterClassMap.Valid() && adapterClassMap.Synced()
        invariant adapterClassMap.entries == Collect(annotated[..i])
        invariant errors == old(errors) + CollectErrors(annotated[..i])
        invariant written == old(written)
      {
        ghost var before := adapterClassMap.entries;
        ghost var logged := errors;
        TryAddFieldToAdapterClass(annotated[i], adapterClassMap);
        CollectLoopStep(old(errors), annotated, i, before, adapterClassMap.entries, logged, errors);
      }
      assert annotated[..|annotated|] == annotated;
    }

    /** One iteration of the collect loop: add the field, and log the exception it may throw. */
    method TryAddFieldToAdapterClass(modelField: FieldElement, adapterClassMap: AdapterClassMap)
      requires adapterClassMap.Valid() && adapterClassMap.Synced()
      modifies this, adapterClassMap, adapterClassMap.Repr
      ensures adapterClassMap.Valid() && adapterClassMap.Synced()
      ensures fresh(adapterClassMap.Repr - old(adapterClassMap.Repr))
      ensures adapterClassMap.entries ==
        match modelField.enclosing
        case EnclosingOther => old(adapterClassMap.entries)
        case EnclosingClass(a) => AddField(old(adapterClassMap.entries), a, ModelFieldOf(modelField))
      ensures errors == old(errors) + FieldErrors(modelField)
      ensures written == old(written)
    {
      var outcome := AddFieldToAdapterClass(modelField, adapterClassMap);
      if outcome.Fail? {
        errors := errors + [outcome.error];
      }
    }

    /** Resolve pass: qualify every short type name, class by class, field by field. */
    method ResolveGeneratedModelNames(adapterClassMap: AdapterClassMap, generatedModels: seq<string>)
      requires adapterClassMap.Valid() && adapterClassMap.Synced()
      modifies adapterClassMap, adapterClassMap.Repr
      ensures adapterClassMap.Valid() && adapterClassMap.Synced()
      ensures adapterClassMap.keys == old(adapterClassMap.keys) && adapterClassMap.values == old(adapterClassMap.values)
      ensures adapterClassMap.entries == ResolveGroups(old(adapterClassMap.entries), generatedModels)
    {
      var values := adapterClassMap.values;
      ghost var before := adapterClassMap.entries;
      ghost var resolved := ResolveGroups(before, generatedModels);
      for i := 0 to |values|
        modifies adapterClassMap.Repr
        invariant forall k :: 0 <= k < i ==> values[k].models == resolved[k].models
        invariant forall k :: i <= k < |values| ==> values[k].models == before[k].models
      {
        forall k | i < k < |values| ensures values[k] != values[i] {
          assert adapterClassMap.keys[k] != adapterClassMap.keys[i];
        }
        ResolveAdapterModels(values[i], generatedModels);
      }
      adapterClassMap.entries := resolved;
    }

    /** The inner loop of the resolve pass, over one class's fields. */
    method ResolveAdapterModels(adapterClassInfo: AdapterClassInfo, generatedModels: seq<string>)
      modifies adapterClassInfo
      ensures adapterClassInfo.models == ResolveModels(old(adapterClassInfo.models), generatedModels)
    {
      ghost var original := adapterClassInfo.models;
      var j := 0;
      while j < |adapterClassInfo.models|
        invariant 0 <= j <= |adapterClassInfo.models| == |original|
        invariant adapterClassInfo.models[..j] == ResolveModels(original[..j], generatedModels)
        invariant adapterClassInfo.models[j..] == original[j..]
      {
        var model := adapterClassInfo.models[j];
        ghost var resolved := ResolveField(model, generatedModels);
        if !HasFullyQualifiedName(model.typeName) {
          var typeName := GetFullyQualifiedModelTypeName(model, generatedModels);
          assert typeName == ResolvedTypeName(model.typeName, generatedModels);
          adapterClassInfo.models := adapterClassInfo.models[j := model.(typeName := typeName)];
        }
        ResolveLoopStep(original, adapterClassInfo.models, j, resolved, generatedModels);
        j := j + 1;
      }
      assert original[..j] == original;
    }

    /**
     * The first generated model whose name ends with "." + the field's type
     * name, or the field's type name itself when there is none.
     */
    method GetFullyQualifiedModelTypeName(model: ModelField, generatedModels: seq<string>) returns (typeName: string)
      ensures var k := MatchIndex(model.typeName, generatedModels);
        typeName == if k < |generatedModels| then generatedModels[k] else model.typeName
    {
      var modelName := model.typeName;
      for i := 0 to |generatedModels|
        invariant forall j :: 0 <= j < i ==> !EndsWith(generatedModels[j], "." + modelName)
      {
        var generatedName := generatedModels[i];
        if EndsWith(generatedName, "." + modelName) {
          return generatedName;
        }
      }
      return model.typeName;
    }

    /**
     * Files one annotated field under its class; a field whose enclosing
     * element is not a class makes the cast throw, which the caller logs.
     */
    method AddFieldToAdapterClass(modelField: FieldElement, adapterClassMap: AdapterClassMap)
      returns (outcome: Outcome<ProcessorError>)
      requires adapterClassMap.Valid() && adapterClassMap.Synced()
      modifies this, adapterClassMap, adapterClassMap.Repr
      ensures adapterClassMap.Valid() && adapterClassMap.Synced()
      ensures fresh(adapterClassMap.Repr - old(adapterClassMap.Repr))
      ensures adapterClassMap.entries ==
        match modelField.enclosing
        case EnclosingOther => old(adapterClassMap.entries)
        case EnclosingClass(a) => AddField(old(adapterClassMap.entries), a, ModelFieldOf(modelField))
      ensures outcome == if modelField.enclosing.EnclosingOther? then Fail(FieldFailed(modelField.simpleName)) else Pass
      ensures errors == old(errors) + if outcome.Fail? then [] else FieldErrors(modelField)
      ensures written == old(written)
    {
      if modelField.enclosing.EnclosingOther? {
        return Fail(FieldFailed(modelField.simpleName));
      }
      var adapterClassElement := modelField.enclosing.adapter;
      ghost var logged := errors;
      ghost var before := adapterClassMap.entries;
      var adapterClass, index := GetOrCreateTargetClass(adapterClassMap, adapterClassElement);
      var info := BuildFieldInfo(modelField);
      ghost var middle := adapterClassMap.entries;
      AddModelToEntry(adapterClassMap, adapterClass, index, info);
      DistinctAdapters(adapterClassMap.keys, middle, index);
      AddFieldAt(middle, index, adapterClassElement, info);
      LookupThenAddField(before, middle, index, adapterClassElement, info);
      assert logged + AdapterErrors(adapterClassElement) + FieldValidationErrors(modelField)
        == logged + ValidationErrors(adapterClassElement, modelField);
      outcome := Pass;
    }

    /** adapterClass.addModel(field), on the record at `index`; the map's entries follow. */
    static method AddModelToEntry(adapterClassMap: AdapterClassMap, adapterClass: AdapterClassInfo, ghost index: nat, info: ModelField)
      requires adapterClassMap.Valid() && adapterClassMap.Synced()
      requires index < |adapterClassMap.keys| && adapterClassMap.values[index] == adapterClass
      modifies adapterClassMap, adapterClass
      ensures adapterClassMap.Valid() && adapterClassMap.Synced()
      ensures adapterClassMap.keys == old(adapterClassMap.keys) && adapterClassMap.values == old(adapterClassMap.values)
      ensures adapterClassMap.Repr == old(adapterClassMap.Repr)
      ensures adapterClassMap.entries ==
        old(adapterClassMap.entries)[index := Group(adapterClassMap.keys[index], old(adapterClassMap.entries)[index].models + [info])]
    {
      var keys := adapterClassMap.keys;
      forall k | 0 <= k < |keys| && k != index ensures adapterClassMap.values[k] != adapterClass {
        assert keys[k] != keys[index];
      }
      adapterClass.AddModel(info);
      var entries := adapterClassMap.entries;
      adapterClassMap.entries := entries[index := Group(keys[index], entries[index].models + [info])];
    }

    /** The record of `adapterClassElement`, created and put at the end of the map when it is new. */
    method GetOrCreateTargetClass(adapterClassMap: AdapterClassMap, adapterClassElement: AdapterClass)
      returns (adapterClassInfo: AdapterClassInfo, ghost index: nat)
      requires adapterClassMap.Valid() && adapterClassMap.Synced()
      modifies this, adapterClassMap
      ensures adapterClassMap.Valid() && adapterClassMap.Synced()
      ensures index < |adapterClassMap.keys| && adapterClassMap.keys[index] == adapterClassElement
      ensures adapterClassMap.values[index] == adapterClassInfo
      ensures index <= |old(adapterClassMap.keys)|
      ensures adapterClassMap.Repr == old(adapterClassMap.Repr) || adapterClassMap.Repr == old(adapterClassMap.Repr) + {adapterClassInfo}
      ensures fresh(adapterClassMap.Repr - old(adapterClassMap.Repr))
      ensures adapterClassMap.entries ==
        if index < |old(adapterClassMap.keys)| then old(adapterClassMap.entries)
        else old(adapterClassMap.entries) + [Group(adapterClassElement, [])]
      ensures errors == old(errors) + AdapterErrors(adapterClassElement)
      ensures written == old(written)
    {
      if !adapterClassElement.isDiffAdapter {
        errors := errors + [NotADiffAdapter(adapterClassElement)];
      }
      index := Position(adapterClassMap.keys, adapterClassElement);
      var info := adapterClassMap.Get(adapterClassElement);
      if info == null {
        info := new AdapterClassInfo(adapterClassElement);
        adapterClassMap.Put(adapterClassElement, info);
      }
      adapterClassInfo := info;
    }

    /** Runs the two field validators, then records the field. */
    method BuildFieldInfo(modelFieldElement: FieldElement) returns (field: ModelField)
      modifies this
      ensures field == ModelFieldOf(modelFieldElement)
      ensures errors == old(errors) + FieldValidationErrors(modelFieldElement)
      ensures written == old(written)
    {
      if !modelFieldElement.accessible {
        errors := errors + [FieldNotAccessible(modelFieldElement.simpleName)];
      }
      if !modelFieldElement.isEpoxyModel {
        errors := errors + [NotAnEpoxyModel(modelFieldElement.simpleName)];
      }
      field := ModelFieldOf(modelFieldElement);
    }

    /** Generate pass: one helper per entry; a failed write is logged and the next entry is tried. */
    method GenerateJava(adapterClassMap: AdapterClassMap)
      requires adapterClassMap.Valid() && adapterClassMap.Synced()
      modifies this
      ensures written == old(written) + GeneratedFiles(adapterClassMap.entries, filer)
      ensures errors == old(errors) + GenerationErrors(adapterClassMap.entries, filer)
    {
      var values := adapterClassMap.values;
      ghost var groups := adapterClassMap.entries;
      for i := 0 to |values|
        invariant written == old(written) + GeneratedFiles(groups[..i], filer)
        invariant errors == old(errors) + GenerationErrors(groups[..i], filer)
      {
        assert groups[i] == Group(values[i].adapterClassType, values[i].models);
        ghost var loggedFiles, loggedErrors := written, errors;
        var outcome := GenerateHelperClassForAdapter(values[i]);
        if outcome.Fail? {
          errors := errors + [outcome.error];
        }
        GenerateStep(old(written), old(errors), groups, i, filer, loggedFiles, loggedErrors, written, errors);
      }
      assert groups[..|values|] == groups;
    }

    method GenerateHelperClassForAdapter(adapterInfo: AdapterClassInfo) returns (outcome: Outcome<ProcessorError>)
      modifies this
      ensures var g := Group(adapterInfo.adapterClassType, adapterInfo.models);
        && written == old(written) + HelperWritten(g, filer)
        && (if outcome.Fail? then [outcome.error] else []) == HelperWriteErrors(g, filer)
      ensures errors == old(errors)
    {
      var statements := BuildModelsMethod(adapterInfo);
      ModelStatementsIds(adapterInfo.models, -1);
      assert statements == ModelStatements(adapterInfo.models, -1);
      var file := JavaFile(adapterInfo.generatedClassName, AdapterHelperInterface, adapterInfo.adapterClassType, statements);
      outcome := WriteTo(file);
    }

    /**
     * The body of buildAutoModels: the k-th field is assigned a new instance
     * of its type with id -(k + 1), so ids are negative and strictly decreasing.
     */
    method BuildModelsMethod(adapterInfo: AdapterClassInfo) returns (statements: seq<Statement>)
      ensures |statements| == |adapterInfo.models|
      ensures forall k :: 0 <= k < |adapterInfo.models| ==>
        statements[k] == AssignNewModel(adapterInfo.models[k].fieldName, adapterInfo.models[k].typeName, -(k + 1))
    {
      statements := [];
      var id := -1;
      for k := 0 to |adapterInfo.models|
        invariant |statements| == k && id == -(k + 1)
        invariant forall j :: 0 <= j < k ==>
          statements[j] == AssignNewModel(adapterInfo.models[j].fieldName, adapterInfo.models[j].typeName, -(j + 1))
      {
        var model := adapterInfo.models[k];
        statements := statements + [AssignNewModel(model.fieldName, model.typeName, id)];
        id := id - 1;
      }
    }

    /** JavaFile.writeTo(filer): the filer either keeps the file or throws. */
    method WriteTo(file: JavaFile) returns (outcome: Outcome<ProcessorError>)
      modifies this
      ensures outcome == if file.className in filer.refused then Fail(WriteFailed(file.className)) else Pass
      ensures written == old(written) + if outcome.Pass? then [file] else []
      ensures errors == old(errors)
    {
      if file.className in filer.refused {
        return Fail(WriteFailed(file.className));
      }
      written := written + [file];
      outcome := Pass;
    }
  }

  /** Adding a field to a class whose empty entry was just appended is adding it to the map without that entry. */
  lemma NewEntryThenAddField(groups: seq<Group>, a: AdapterClass, m: ModelField)
    requires forall k :: 0 <= k < |groups| ==> groups[k].adapter != a
    ensures AddField(groups + [Group(a, [])], a, m) == AddField(groups, a, m)
  {
    var middle := groups + [Group(a, [])];
    var n := |groups|;
    assert forall k :: 0 <= k < n ==> middle[k] == groups[k];
    assert middle[n].adapter == a;
    assert IndexOf(groups, a) == n;
    assert IndexOf(middle, a) == n;
    var left := middle[n := Group(a, middle[n].models + [m])];
    var right := groups + [Group(a, [m])];
    assert middle[n].models + [m] == [m];
    assert |left| == |right|;
    forall k | 0 <= k < |left| ensures left[k] == right[k] {
    }
  }

  /** With distinct keys, the entry at `index` is the only one under its class. */
  lemma DistinctAdapters(keys: seq<AdapterClass>, groups: seq<Group>, index: nat)
    requires Distinct(keys) && |groups| == |keys| && index < |keys|
    requires forall k :: 0 <= k < |keys| ==> groups[k].adapter == keys[k]
    ensures forall k :: 0 <= k < |groups| && k != index ==> groups[k].adapter != groups[index].adapter
  {
  }

  /** Filing a field under the class of the entry at `index` extends that entry alone. */
  lemma AddFieldAt(groups: seq<Group>, index: nat, a: AdapterClass, m: ModelField)
    requires index < |groups| && groups[index].adapter == a
    requires forall k :: 0 <= k < |groups| && k != index ==> groups[k].adapter != a
    ensures AddField(groups, a, m) == groups[index := Group(a, groups[index].models + [m])]
  {
    assert IndexOf(groups, a) == index;
  }

  /**
   * Looking the class up (and adding an empty entry at the end when it is
   * new) and then filing the field is filing the field.
   */
  lemma LookupThenAddField(before: seq<Group>, middle: seq<Group>, index: nat, a: AdapterClass, m: ModelField)
    requires index <= |before|
    requires middle == if index < |before| then before else before + [Group(a, [])]
    requires forall k :: 0 <= k < |middle| && k != index ==> middle[k].adapter != a
    ensures AddField(middle, a, m) == AddField(before, a, m)
  {
    if index == |before| {
      assert forall k :: 0 <= k < |before| ==> before[k] == middle[k];
      NewEntryThenAddField(before, a, m);
    }
  }

  /** Regrouping the log: the errors of the collect pass, then those of generation. */
  lemma AppendAssoc(a: seq<ProcessorError>, b: seq<ProcessorError>, c: seq<ProcessorError>)
    ensures a + b + c == a + (b + c)
  {
  }

  /** One iteration of the collect loop: the map and the log follow Collect and CollectErrors. */
  lemma CollectLoopStep(
    start: seq<ProcessorError>, fields: seq<FieldElement>, i: nat,
    before: seq<Group>, after: seq<Group>, logged: seq<ProcessorError>, now: seq<ProcessorError>)
    requires i < |fields|
    requires before == Collect(fields[..i]) && logged == start + CollectErrors(fields[..i])
    requires after == match fields[i].enclosing
      case EnclosingOther => before
      case EnclosingClass(a) => AddField(before, a, ModelFieldOf(fields[i]))
    requires now == logged + FieldErrors(fields[i])
    ensures after == Collect(fields[..i + 1])
    ensures now == start + CollectErrors(fields[..i + 1])
  {
    CollectStep(fields, i);
    CollectErrorsStep(start, fields, i);
  }

  /** One step of the collect loop, on the adapter map. */
  lemma CollectStep(fields: seq<FieldElement>, i: nat)
    requires i < |fields|
    ensures Collect(fields[..i + 1]) ==
      match fields[i].enclosing
      case EnclosingOther => Collect(fields[..i])
      case EnclosingClass(a) => AddField(Collect(fields[..i]), a, ModelFieldOf(fields[i]))
  {
    var q := fields[..i + 1];
    assert q[..|q| - 1] == fields[..i] && q[|q| - 1] == fields[i];
  }

  /** One step of the collect loop, on the logged errors. */
  lemma CollectErrorsStep(start: seq<ProcessorError>, fields: seq<FieldElement>, i: nat)
    requires i < |fields|
    ensures start + CollectErrors(fields[..i + 1]) == start + CollectErrors(fields[..i]) + FieldErrors(fields[i])
  {
    var q := fields[..i + 1];
    assert q[..|q| - 1] == fields[..i] && q[|q| - 1] == fields[i];
  }

  /** One iteration of the generate loop: the files and the log follow GeneratedFiles and GenerationErrors. */
  lemma GenerateStep(
    files: seq<JavaFile>, errors: seq<ProcessorError>, groups: seq<Group>, i: nat, filer: Filer,
    loggedFiles: seq<JavaFile>, loggedErrors: seq<ProcessorError>, nowFiles: seq<JavaFile>, nowErrors: seq<ProcessorError>)
    requires i < |groups|
    requires loggedFiles == files + GeneratedFiles(groups[..i], filer)
    requires loggedErrors == errors + GenerationErrors(groups[..i], filer)
    requires nowFiles == loggedFiles + HelperWritten(groups[i], filer)
    requires nowErrors == loggedErrors + HelperWriteErrors(groups[i], filer)
    ensures nowFiles == files + GeneratedFiles(groups[..i + 1], filer)
    ensures nowErrors == errors + GenerationErrors(groups[..i + 1], filer)
  {
    var q := groups[..i + 1];
    assert q[..|q| - 1] == groups[..i] && q[|q| - 1] == groups[i];
  }

  /** One iteration of the resolve loop: position j now holds its resolved field. */
  lemma ResolveLoopStep(original: seq<ModelField>, models: seq<ModelField>, j: nat, resolved: ModelField, generatedModels: seq<string>)
    requires j < |models| == |original|
    requires resolved == ResolveField(original[j], generatedModels)
    requires models[..j] == ResolveModels(original[..j], generatedModels)
    requires models[j] == resolved && models[j + 1..] == original[j + 1..]
    ensures models[..j + 1] == ResolveModels(original[..j + 1], generatedModels)
    ensures models[j + 1..] == original[j + 1..]
  {
    var done := models[..j + 1];
    forall k | 0 <= k <= j ensures done[k] == ResolveField(original[k], generatedModels) {
      if k < j {
        assert done[k] == models[..j][k];
      }
    }
  }
}
