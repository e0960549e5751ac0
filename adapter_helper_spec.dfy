/**
 * The values the adapter-helper annotation processor works on, and the
 * specification of its three passes as functions:
 *   collect  -- group the @AutoModel fields by their enclosing adapter class;
 *   resolve  -- qualify short model type names against the generated models;
 *   generate -- one `<Adapter>_EpoxyHelper` class per adapter, with one
 *               `adapter.field = new Type().id(n)` statement per field.
 * The imperative processor in AdapterHelperProcessing is proved against these.
 */
module AdapterHelperSpec {

  /** Suffix of every generated helper class name. */
  const GeneratedHelperClassSuffix: string := "_EpoxyHelper"

  /** The class every generated helper extends (parameterized by the adapter type). */
  const AdapterHelperInterface: string := "com.airbnb.epoxy.AdapterHelper"

  // ---------------------------------------------------------------------
  // Elements of the compilation round
  // ---------------------------------------------------------------------

  /** What a qualified name starts with inside a package: nothing in the unnamed package. */
  function PackagePrefix(packageName: string): string {
    if packageName == "" then "" else packageName + "."
  }

  /** A class's name inside its package: never empty. */
  type NameInPackage = s: string | |s| > 0 witness "A"

  /**
   * A class as the compiler reports it: the name of its package, its name
   * inside that package (nested classes keep their dots), and whether it
   * extends the diff adapter (the verdict of a validator that is not part
   * of this model).
   */
  datatype TypeElement = TypeElement(packageName: string, nameInPackage: NameInPackage, isDiffAdapter: bool)
  {
    /** The qualified name: the package prefix followed by the name inside the package. */
    function QualifiedName(): string {
      PackagePrefix(packageName) + nameInPackage
    }
  }

  /** The adapter classes the annotated fields are declared in. */
  type AdapterClass = TypeElement

  /**
   * The element enclosing an annotated field: a class, or something the
   * processor's cast to a type element rejects.
   */
  datatype Enclosing = EnclosingClass(adapter: AdapterClass) | EnclosingOther

  /**
   * A field annotated with @AutoModel: where it is declared, its simple name,
   * the printed name of its type, and the verdicts of the two field
   * validators (accessible from generated code, is an EpoxyModel).
   */
  datatype FieldElement = FieldElement(
    enclosing: Enclosing,
    simpleName: string,
    typeName: string,
    accessible: bool,
    isEpoxyModel: bool)

  /** The processor's record of one field: its name and its (resolvable) type name. */
  datatype ModelField = ModelField(fieldName: string, typeName: string)

  function ModelFieldOf(f: FieldElement): ModelField {
    ModelField(f.simpleName, f.typeName)
  }

  /** A package and a simple name, as a generated class is named. */
  datatype ClassName = ClassName(packageName: string, simpleName: string)

  /** What the processor reports to the error logger. */
  datatype ProcessorError =
    | NotADiffAdapter(adapter: AdapterClass)
    | FieldNotAccessible(field: string)
    | NotAnEpoxyModel(field: string)
    | FieldFailed(field: string)
    | WriteFailed(className: ClassName)

  // ---------------------------------------------------------------------
  // Collect
  // ---------------------------------------------------------------------

  /** One entry of the insertion-ordered adapter map: an adapter class and its fields. */
  datatype Group = Group(adapter: AdapterClass, models: seq<ModelField>)

  function Adapters(groups: seq<Group>): (r: seq<AdapterClass>)
    ensures |r| == |groups|
    ensures forall i :: 0 <= i < |groups| ==> r[i] == groups[i].adapter
  {
    if groups == [] then [] else [groups[0].adapter] + Adapters(groups[1..])
  }

  predicate Distinct<T(==)>(s: seq<T>) {
    forall i, j :: 0 <= i < j < |s| ==> s[i] != s[j]
  }

  /** The position of the first occurrence of `x` in `s`, or |s| when there is none. */
  function Position<T(==)>(s: seq<T>, x: T): (i: nat)
    ensures i <= |s|
    ensures i < |s| ==> s[i] == x
    ensures i == |s| ==> x !in s
    ensures forall j :: 0 <= j < i ==> s[j] != x
  {
    if s == [] then 0
    else if s[0] == x then 0
    else 1 + Position(s[1..], x)
  }

  /** The position of the entry for `a`, or |groups| when there is none. */
  function IndexOf(groups: seq<Group>, a: AdapterClass): (i: nat)
    ensures i <= |groups|
    ensures i < |groups| ==> groups[i].adapter == a
    ensures i == |groups| ==> a !in Adapters(groups)
    ensures forall j :: 0 <= j < i ==> groups[j].adapter != a
  {
    Position(Adapters(groups), a)
  }

  /** Appends a field to the entry of `a`, creating the entry at the end when it is new. */
  function AddField(groups: seq<Group>, a: AdapterClass, m: ModelField): seq<Group> {
    var i := IndexOf(groups, a);
    if i < |groups| then groups[i := Group(a, groups[i].models + [m])]
    else groups + [Group(a, [m])]
  }

  /** The adapter map after the collect pass has seen `fields`, in order. */
  function Collect(fields: seq<FieldElement>): seq<Group> {
    if fields == [] then []
    else
      var groups := Collect(fields[..|fields| - 1]);
      var f := fields[|fields| - 1];
      match f.enclosing
      case EnclosingOther => groups
      case EnclosingClass(a) => AddField(groups, a, ModelFieldOf(f))
  }

  /** What the adapter check logs for the class a field is declared in. */
  function AdapterErrors(a: AdapterClass): seq<ProcessorError> {
    if a.isDiffAdapter then [] else [NotADiffAdapter(a)]
  }

  /** What the two field validators log, in the order the processor runs them. */
  function FieldValidationErrors(f: FieldElement): seq<ProcessorError> {
    (if f.accessible then [] else [FieldNotAccessible(f.simpleName)])
    + (if f.isEpoxyModel then [] else [NotAnEpoxyModel(f.simpleName)])
  }

  /** What the validators log for a field of class `a`, in the order the processor checks. */
  function ValidationErrors(a: AdapterClass, f: FieldElement): seq<ProcessorError> {
    AdapterErrors(a) + FieldValidationErrors(f)
  }

  /** Everything logged while one field is collected, including the caught exception. */
  function FieldErrors(f: FieldElement): seq<ProcessorError> {
    match f.enclosing
    case EnclosingOther => [FieldFailed(f.simpleName)]
    case EnclosingClass(a) => ValidationErrors(a, f)
  }

  function CollectErrors(fields: seq<FieldElement>): seq<ProcessorError> {
    if fields == [] then []
    else CollectErrors(fields[..|fields| - 1]) + FieldErrors(fields[|fields| - 1])
  }

  // Reference definitions for the collect pass: the fields of one class, and where it first appears.

  /** The fields declared in `a`, in the order they were seen. */
  function FieldsOf(fields: seq<FieldElement>, a: AdapterClass): seq<ModelField> {
    if fields == [] then []
    else
      var f := fields[|fields| - 1];
      FieldsOf(fields[..|fields| - 1], a) + (if DeclaredIn(f, a) then [ModelFieldOf(f)] else [])
  }

  /** Whether `f` is declared in the class `a`. */
  predicate DeclaredIn(f: FieldElement, a: AdapterClass) {
    f.enclosing == EnclosingClass(a)
  }

  /** The position of the first field declared in `a`, or |fields| when there is none. */
  function FirstFieldIndex(fields: seq<FieldElement>, a: AdapterClass): (k: nat)
    ensures k <= |fields|
    ensures k < |fields| ==> DeclaredIn(fields[k], a)
    ensures forall j :: 0 <= j < k ==> !DeclaredIn(fields[j], a)
  {
    if fields == [] then 0
    else
      var p := fields[..|fields| - 1];
      var k := FirstFieldIndex(p, a);
      if k < |p| then k
      else if DeclaredIn(fields[|fields| - 1], a) then |p|
      else |fields|
  }

  lemma {:induction false} FieldsOfEmpty(fields: seq<FieldElement>, a: AdapterClass)
    ensures FieldsOf(fields, a) == [] <==> FirstFieldIndex(fields, a) == |fields|
  {
    if fields != [] {
      FieldsOfEmpty(fields[..|fields| - 1], a);
    }
  }

  /** Adding one field to the end leaves the first index of a class already seen unchanged. */
  lemma FirstFieldIndexSnoc(p: seq<FieldElement>, f: FieldElement, a: AdapterClass)
    ensures FirstFieldIndex(p + [f], a) ==
      if FirstFieldIndex(p, a) < |p| then FirstFieldIndex(p, a)
      else if DeclaredIn(f, a) then |p|
      else |p| + 1
  {
    assert (p + [f])[..|p|] == p;
  }

  /**
   * `groups` groups `fields` by class: one entry per class that has a field,
   * entries in the order their classes were first seen, each entry listing
   * that class's fields in the order seen.
   */
  ghost predicate GroupedBy(fields: seq<FieldElement>, groups: seq<Group>) {
    && Distinct(Adapters(groups))
    && (forall a :: a in Adapters(groups) <==> FieldsOf(fields, a) != [])
    && (forall i :: 0 <= i < |groups| ==> groups[i].models == FieldsOf(fields, groups[i].adapter))
    && (forall i, j :: 0 <= i < j < |groups| ==>
          FirstFieldIndex(fields, groups[i].adapter) < FirstFieldIndex(fields, groups[j].adapter))
  }

  /** How the reference definitions for class `b` change when one field is appended. */
  lemma SnocFacts(p: seq<FieldElement>, f: FieldElement, b: AdapterClass)
    ensures FieldsOf(p + [f], b) == FieldsOf(p, b) + (if DeclaredIn(f, b) then [ModelFieldOf(f)] else [])
    ensures FieldsOf(p, b) != [] ==> FirstFieldIndex(p + [f], b) == FirstFieldIndex(p, b) < |p|
    ensures FieldsOf(p, b) == [] && DeclaredIn(f, b) ==> FirstFieldIndex(p + [f], b) == |p|
  {
    assert (p + [f])[..|p|] == p;
    FieldsOfEmpty(p, b);
  }

  lemma CollectStepOther(p: seq<FieldElement>, f: FieldElement, g: seq<Group>)
    requires GroupedBy(p, g)
    requires f.enclosing == EnclosingOther
    ensures GroupedBy(p + [f], g)
  {
    var fs := p + [f];
    forall b ensures FieldsOf(fs, b) == FieldsOf(p, b) {
      SnocFacts(p, f, b);
    }
    forall k, l | 0 <= k < l < |g|
      ensures FirstFieldIndex(fs, g[k].adapter) < FirstFieldIndex(fs, g[l].adapter)
    {
      assert g[k].adapter in Adapters(g) && g[l].adapter in Adapters(g);
      SnocFacts(p, f, g[k].adapter);
      SnocFacts(p, f, g[l].adapter);
    }
  }

  lemma CollectStepExisting(p: seq<FieldElement>, f: FieldElement, a: AdapterClass, g: seq<Group>)
    requires GroupedBy(p, g)
    requires DeclaredIn(f, a) && IndexOf(g, a) < |g|
    ensures GroupedBy(p + [f], AddField(g, a, ModelFieldOf(f)))
  {
    var fs := p + [f];
    var i := IndexOf(g, a);
    var g' := AddField(g, a, ModelFieldOf(f));
    assert Adapters(g') == Adapters(g);
    forall b ensures b in Adapters(g') <==> FieldsOf(fs, b) != [] {
      SnocFacts(p, f, b);
      if b == a {
        assert g[i].adapter == b;
      }
    }
    forall k | 0 <= k < |g'| ensures g'[k].models == FieldsOf(fs, g'[k].adapter) {
      SnocFacts(p, f, g'[k].adapter);
      if k != i {
        assert g'[k] == g[k];
        assert g[k].adapter != a;
      }
    }
    forall k, l | 0 <= k < l < |g'|
      ensures FirstFieldIndex(fs, g'[k].adapter) < FirstFieldIndex(fs, g'[l].adapter)
    {
      assert g[k].adapter in Adapters(g) && g[l].adapter in Adapters(g);
      SnocFacts(p, f, g[k].adapter);
      SnocFacts(p, f, g[l].adapter);
    }
  }

  lemma CollectStepNew(p: seq<FieldElement>, f: FieldElement, a: AdapterClass, g: seq<Group>)
    requires GroupedBy(p, g)
    requires DeclaredIn(f, a) && IndexOf(g, a) == |g|
    ensures GroupedBy(p + [f], AddField(g, a, ModelFieldOf(f)))
  {
    var g' := AddField(g, a, ModelFieldOf(f));
    assert g' == g + [Group(a, [ModelFieldOf(f)])];
    CollectStepNewDistinct(g, Group(a, [ModelFieldOf(f)]));
    CollectStepNewClasses(p, f, a, g);
    CollectStepNewModels(p, f, a, g);
    CollectStepNewOrder(p, f, a, g);
  }

  lemma CollectStepNewDistinct(g: seq<Group>, e: Group)
    requires Distinct(Adapters(g)) && e.adapter !in Adapters(g)
    ensures Distinct(Adapters(g + [e]))
  {
    var g' := g + [e];
    forall k, l | 0 <= k < l < |g'| ensures Adapters(g')[k] != Adapters(g')[l] {
      if l == |g| {
        assert Adapters(g')[k] == Adapters(g)[k];
      } else {
        assert Adapters(g')[l] == Adapters(g)[l];
      }
    }
  }

  lemma CollectStepNewClasses(p: seq<FieldElement>, f: FieldElement, a: AdapterClass, g: seq<Group>)
    requires forall b :: b in Adapters(g) <==> FieldsOf(p, b) != []
    requires DeclaredIn(f, a)
    ensures forall b :: b in Adapters(g + [Group(a, [ModelFieldOf(f)])]) <==> FieldsOf(p + [f], b) != []
  {
    var g' := g + [Group(a, [ModelFieldOf(f)])];
    assert Adapters(g') == Adapters(g) + [a];
    forall b ensures b in Adapters(g') <==> FieldsOf(p + [f], b) != [] {
      SnocFacts(p, f, b);
    }
  }

  lemma CollectStepNewModels(p: seq<FieldElement>, f: FieldElement, a: AdapterClass, g: seq<Group>)
    requires forall b :: b in Adapters(g) <==> FieldsOf(p, b) != []
    requires forall i :: 0 <= i < |g| ==> g[i].models == FieldsOf(p, g[i].adapter)
    requires DeclaredIn(f, a) && a !in Adapters(g)
    ensures var g' := g + [Group(a, [ModelFieldOf(f)])];
      forall k :: 0 <= k < |g'| ==> g'[k].models == FieldsOf(p + [f], g'[k].adapter)
  {
    var g' := g + [Group(a, [ModelFieldOf(f)])];
    forall k | 0 <= k < |g'| ensures g'[k].models == FieldsOf(p + [f], g'[k].adapter) {
      SnocFacts(p, f, g'[k].adapter);
      if k < |g| {
        assert g'[k] == g[k];
        assert g[k].adapter in Adapters(g);
      }
    }
  }

  lemma CollectStepNewOrder(p: seq<FieldElement>, f: FieldElement, a: AdapterClass, g: seq<Group>)
    requires GroupedBy(p, g)
    requires DeclaredIn(f, a) && IndexOf(g, a) == |g|
    ensures var g' := g + [Group(a, [ModelFieldOf(f)])];
      forall k, l :: 0 <= k < l < |g'| ==>
        FirstFieldIndex(p + [f], g'[k].adapter) < FirstFieldIndex(p + [f], g'[l].adapter)
  {
    var g' := g + [Group(a, [ModelFieldOf(f)])];
    assert FieldsOf(p, a) == [];
    SnocFacts(p, f, a);
    forall k, l | 0 <= k < l < |g'|
      ensures FirstFieldIndex(p + [f], g'[k].adapter) < FirstFieldIndex(p + [f], g'[l].adapter)
    {
      assert g[k].adapter in Adapters(g);
      SnocFacts(p, f, g[k].adapter);
      if l < |g| {
        assert g[l].adapter in Adapters(g);
        SnocFacts(p, f, g[l].adapter);
      }
    }
  }

  /**
   * The collect pass groups fields by class: every class with a field has
   * exactly one entry, entries appear in the order their classes were first
   * seen, and each entry lists exactly that class's fields in the order seen.
   */
  lemma {:induction false} CollectGroupsByClass(fields: seq<FieldElement>)
    ensures GroupedBy(fields, Collect(fields))
  {
    if fields != [] {
      var p := fields[..|fields| - 1];
      var f := fields[|fields| - 1];
      assert fields == p + [f];
      CollectGroupsByClass(p);
      match f.enclosing
      case EnclosingOther =>
        CollectStepOther(p, f, Collect(p));
      case EnclosingClass(a) =>
        if IndexOf(Collect(p), a) < |Collect(p)| {
          CollectStepExisting(p, f, a, Collect(p));
        } else {
          CollectStepNew(p, f, a, Collect(p));
        }
    }
  }

  /** A field whose enclosing element is not a class is logged and skipped; it changes no entry. */
  lemma {:induction false} CollectSkipsFailedField(before: seq<FieldElement>, failed: FieldElement, after: seq<FieldElement>)
    requires failed.enclosing == EnclosingOther
    ensures Collect(before + [failed] + after) == Collect(before + after)
  {
    if after == [] {
      assert (before + [failed] + after)[..|before| + 1 - 1] == before;
      assert before + after == before;
    } else {
      var rest := after[..|after| - 1];
      var last := after[|after| - 1];
      CollectSkipsFailedField(before, failed, rest);
      var withFailed := before + [failed] + after;
      var without := before + after;
      assert withFailed[..|withFailed| - 1] == before + [failed] + rest;
      assert without[..|without| - 1] == before + rest;
      assert withFailed[|withFailed| - 1] == last && without[|without| - 1] == last;
    }
  }

  // ---------------------------------------------------------------------
  // Resolve
  // ---------------------------------------------------------------------

  predicate EndsWith(s: string, suffix: string) {
    |suffix| <= |s| && s[|s| - |suffix|..] == suffix
  }

  /** A type name is taken to be fully qualified when it contains a dot. */
  predicate HasFullyQualifiedName(typeName: string) {
    '.' in typeName
  }

  /** The position of the first generated name ending in "." + modelName, or |generatedModels|. */
  function MatchIndex(modelName: string, generatedModels: seq<string>): (k: nat)
    ensures k <= |generatedModels|
    ensures k < |generatedModels| ==> EndsWith(generatedModels[k], "." + modelName)
    ensures forall j :: 0 <= j < k ==> !EndsWith(generatedModels[j], "." + modelName)
  {
    if generatedModels == [] then 0
    else if EndsWith(generatedModels[0], "." + modelName) then 0
    else 1 + MatchIndex(modelName, generatedModels[1..])
  }

  /** The first matching generated name, or `modelName` itself when none matches. */
  function FullyQualifiedModelTypeName(modelName: string, generatedModels: seq<string>): string {
    var k := MatchIndex(modelName, generatedModels);
    if k < |generatedModels| then generatedModels[k] else modelName
  }

  /** The type name a field has after the resolve pass. */
  function ResolvedTypeName(typeName: string, generatedModels: seq<string>): string {
    if HasFullyQualifiedName(typeName) then typeName
    else FullyQualifiedModelTypeName(typeName, generatedModels)
  }

  /**
   * A qualified name is kept; otherwise the result is the name itself or a
   * generated name ending in "." + the name, and in either case it is
   * qualified or unchanged.
   */
  lemma ResolvedTypeNameSpec(typeName: string, generatedModels: seq<string>)
    ensures var r := ResolvedTypeName(typeName, generatedModels);
      && (HasFullyQualifiedName(typeName) ==> r == typeName)
      && (r == typeName || (r in generatedModels && EndsWith(r, "." + typeName)))
      && (HasFullyQualifiedName(r) || r == typeName)
  {
    var k := MatchIndex(typeName, generatedModels);
    if !HasFullyQualifiedName(typeName) && k < |generatedModels| {
      var g := generatedModels[k];
      assert g[|g| - |typeName| - 1] == ("." + typeName)[0];
    }
  }

  function ResolveField(m: ModelField, generatedModels: seq<string>): ModelField {
    m.(typeName := ResolvedTypeName(m.typeName, generatedModels))
  }

  function ResolveModels(models: seq<ModelField>, generatedModels: seq<string>): (r: seq<ModelField>)
    ensures |r| == |models|
    ensures forall i :: 0 <= i < |models| ==> r[i] == ResolveField(models[i], generatedModels)
  {
    if models == [] then []
    else [ResolveField(models[0], generatedModels)] + ResolveModels(models[1..], generatedModels)
  }

  function ResolveGroups(groups: seq<Group>, generatedModels: seq<string>): (r: seq<Group>)
    ensures |r| == |groups|
    ensures forall i :: 0 <= i < |groups| ==>
      r[i] == Group(groups[i].adapter, ResolveModels(groups[i].models, generatedModels))
  {
    if groups == [] then []
    else
      var first := Group(groups[0].adapter, ResolveModels(groups[0].models, generatedModels));
      [first] + ResolveGroups(groups[1..], generatedModels)
  }

  /** A resolved name is qualified or left alone, so resolving twice changes nothing more. */
  lemma ResolveIdempotent(typeName: string, generatedModels: seq<string>)
    ensures ResolvedTypeName(ResolvedTypeName(typeName, generatedModels), generatedModels)
         == ResolvedTypeName(typeName, generatedModels)
  {
    ResolvedTypeNameSpec(typeName, generatedModels);
  }

  /** The whole resolve pass is idempotent. */
  lemma ResolveGroupsIdempotent(groups: seq<Group>, generatedModels: seq<string>)
    ensures ResolveGroups(ResolveGroups(groups, generatedModels), generatedModels)
         == ResolveGroups(groups, generatedModels)
  {
    var once := ResolveGroups(groups, generatedModels);
    var twice := ResolveGroups(once, generatedModels);
    forall i | 0 <= i < |groups|
      ensures twice[i] == once[i]
    {
      var ms := once[i].models;
      forall k | 0 <= k < |ms|
        ensures ResolveField(ms[k], generatedModels) == ms[k]
      {
        ResolveIdempotent(groups[i].models[k].typeName, generatedModels);
      }
      assert ResolveModels(ms, generatedModels) == ms;
    }
  }

  // ---------------------------------------------------------------------
  // Generate
  // ---------------------------------------------------------------------

  /** String.replace('.', '$'). */
  function ReplaceDots(s: string): (r: string)
    ensures |r| == |s|
    ensures forall i :: 0 <= i < |s| ==> r[i] == (if s[i] == '.' then '$' else s[i])
  {
    if s == [] then [] else [if s[0] == '.' then '$' else s[0]] + ReplaceDots(s[1..])
  }

  /**
   * The helper's name as the processor computes it: it always drops
   * |package| + 1 characters of the qualified name, also in the unnamed
   * package, where there is no "package." to drop.
   */
  function GeneratedClassNameAsWritten(a: AdapterClass): ClassName {
    var packageLen := |a.packageName| + 1;
    ClassName(a.packageName, ReplaceDots(a.QualifiedName()[packageLen..]) + GeneratedHelperClassSuffix)
  }

  /** The helper's name: the class's name in its package, dots made '$', plus the suffix. */
  function GeneratedClassName(a: AdapterClass): ClassName {
    ClassName(a.packageName, ReplaceDots(a.nameInPackage) + GeneratedHelperClassSuffix)
  }

  /**
   * The helper lives in the adapter's package and is named after the
   * adapter's name inside it, with every '.' turned into '$' and followed by
   * "_EpoxyHelper"; its simple name has no dot.
   */
  lemma GeneratedClassNameSpec(a: AdapterClass)
    ensures var s := GeneratedClassName(a).simpleName;
      && GeneratedClassName(a).packageName == a.packageName
      && |s| == |a.nameInPackage| + |GeneratedHelperClassSuffix|
      && (forall i :: 0 <= i < |a.nameInPackage| ==>
            s[i] == if a.nameInPackage[i] == '.' then '$' else a.nameInPackage[i])
      && EndsWith(s, GeneratedHelperClassSuffix)
      && '.' !in s
  {
    var s := GeneratedClassName(a).simpleName;
    var r := ReplaceDots(a.nameInPackage);
    assert s[|s| - |GeneratedHelperClassSuffix|..] == GeneratedHelperClassSuffix;
    forall i | 0 <= i < |s| ensures s[i] != '.' {
      if i >= |r| {
        assert s[i] == GeneratedHelperClassSuffix[i - |r|];
      }
    }
  }

  /** In a named package the processor's computation is the intended one. */
  lemma GeneratedClassNameAsWrittenInNamedPackage(a: AdapterClass)
    requires a.packageName != ""
    ensures GeneratedClassNameAsWritten(a) == GeneratedClassName(a)
  {
    assert a.QualifiedName()[|a.packageName| + 1..] == a.nameInPackage;
  }

  /** In the unnamed package the processor drops the first character of the class name. */
  lemma GeneratedClassNameAsWrittenInUnnamedPackage()
    ensures GeneratedClassNameAsWritten(TypeElement("", "Ab", true)) == ClassName("", "b" + GeneratedHelperClassSuffix)
    ensures GeneratedClassName(TypeElement("", "Ab", true)) == ClassName("", "Ab" + GeneratedHelperClassSuffix)
  {
    var e := TypeElement("", "Ab", true);
    assert e.QualifiedName()[1..] == "b";
    assert "b"[1..] == [] && "Ab"[1..] == "b";
    assert ReplaceDots("b") == "b";
    assert ReplaceDots("Ab") == "Ab";
  }

  /** `adapter.<fieldName> = new <typeName>().id(<id>)`. */
  datatype Statement = AssignNewModel(fieldName: string, typeName: string, id: int)

  /** The body of buildAutoModels: one statement per field, ids counting down from `id`. */
  function ModelStatements(models: seq<ModelField>, id: int): seq<Statement> {
    if models == [] then []
    else [AssignNewModel(models[0].fieldName, models[0].typeName, id)] + ModelStatements(models[1..], id - 1)
  }

  lemma {:induction false} ModelStatementsIds(models: seq<ModelField>, id: int)
    ensures |ModelStatements(models, id)| == |models|
    ensures forall k :: 0 <= k < |models| ==>
      ModelStatements(models, id)[k] == AssignNewModel(models[k].fieldName, models[k].typeName, id - k)
  {
    if models != [] {
      ModelStatementsIds(models[1..], id - 1);
    }
  }

  /** A generated source file: the helper class, its superclass, its type argument and its method body. */
  datatype JavaFile = JavaFile(className: ClassName, superclass: string, adapterType: AdapterClass, statements: seq<Statement>)

  /** The file the processor generates for one adapter entry; ids start at -1 for every adapter. */
  function HelperFile(g: Group): JavaFile {
    JavaFile(GeneratedClassName(g.adapter), AdapterHelperInterface, g.adapter, ModelStatements(g.models, -1))
  }

  /** The filer: writing a file whose class it refuses throws an IOException. */
  datatype Filer = Filer(refused: set<ClassName>)

  /** What writing the helper of `g` adds to the files: nothing when the filer refuses it. */
  function HelperWritten(g: Group, filer: Filer): seq<JavaFile> {
    var file := HelperFile(g);
    if file.className in filer.refused then [] else [file]
  }

  /** What writing the helper of `g` adds to the log: the failed write when the filer refuses it. */
  function HelperWriteErrors(g: Group, filer: Filer): seq<ProcessorError> {
    var file := HelperFile(g);
    if file.className in filer.refused then [WriteFailed(file.className)] else []
  }

  /** The files the generate pass writes for `groups`, in order. */
  function GeneratedFiles(groups: seq<Group>, filer: Filer): seq<JavaFile> {
    if groups == [] then []
    else GeneratedFiles(groups[..|groups| - 1], filer) + HelperWritten(groups[|groups| - 1], filer)
  }

  /** The errors the generate pass logs for `groups`, in order. */
  function GenerationErrors(groups: seq<Group>, filer: Filer): seq<ProcessorError> {
    if groups == [] then []
    else GenerationErrors(groups[..|groups| - 1], filer) + HelperWriteErrors(groups[|groups| - 1], filer)
  }

  /** A failed write is isolated: every other adapter's file is still written. */
  lemma {:induction false} GeneratedFilesMembers(groups: seq<Group>, filer: Filer)
    ensures forall f :: f in GeneratedFiles(groups, filer) <==>
      exists g :: g in groups && f == HelperFile(g) && f.className !in filer.refused
  {
    if groups != [] {
      var p := groups[..|groups| - 1];
      GeneratedFilesMembers(p, filer);
      assert groups == p + [groups[|groups| - 1]];
    }
  }

  // ---------------------------------------------------------------------
  // One processing round
  // ---------------------------------------------------------------------

  /** What one round leaves behind: the files written and the errors logged, in order. */
  datatype RoundOutput = RoundOutput(files: seq<JavaFile>, errors: seq<ProcessorError>)

  /** Collect every field, then resolve every entry, then generate every entry. */
  function ProcessRound(fields: seq<FieldElement>, generatedModels: seq<string>, filer: Filer): RoundOutput {
    var groups := ResolveGroups(Collect(fields), generatedModels);
    RoundOutput(GeneratedFiles(groups, filer), CollectErrors(fields) + GenerationErrors(groups, filer))
  }

  /** The helper an adapter with at least one field is meant to get. */
  function ExpectedHelper(fields: seq<FieldElement>, generatedModels: seq<string>, a: AdapterClass): JavaFile {
    JavaFile(GeneratedClassName(a), AdapterHelperInterface, a,
      ModelStatements(ResolveModels(FieldsOf(fields, a), generatedModels), -1))
  }

  /**
   * A round writes exactly the helpers of the adapter classes that have
   * fields and whose file the filer accepts; each helper assigns that
   * class's fields in the order seen, with resolved types, ids -1, -2, ...
   */
  lemma ProcessRoundFiles(fields: seq<FieldElement>, generatedModels: seq<string>, filer: Filer)
    ensures forall f :: f in ProcessRound(fields, generatedModels, filer).files ==>
      FieldsOf(fields, f.adapterType) != []
      && f == ExpectedHelper(fields, generatedModels, f.adapterType)
      && f.className !in filer.refused
    ensures forall a :: FieldsOf(fields, a) != [] && GeneratedClassName(a) !in filer.refused ==>
      ExpectedHelper(fields, generatedModels, a) in ProcessRound(fields, generatedModels, filer).files
  {
    var collected := Collect(fields);
    var groups := ResolveGroups(collected, generatedModels);
    CollectGroupsByClass(fields);
    GeneratedFilesMembers(groups, filer);
    forall i | 0 <= i < |groups|
      ensures HelperFile(groups[i]) == ExpectedHelper(fields, generatedModels, groups[i].adapter)
      ensures FieldsOf(fields, groups[i].adapter) != []
    {
      assert collected[i].adapter in Adapters(collected);
    }
    forall a | FieldsOf(fields, a) != [] && GeneratedClassName(a) !in filer.refused
      ensures ExpectedHelper(fields, generatedModels, a) in GeneratedFiles(groups, filer)
    {
      var i := IndexOf(collected, a);
      assert groups[i] in groups;
      assert HelperFile(groups[i]) == ExpectedHelper(fields, generatedModels, a);
    }
  }

  /** The k-th statement of every helper gives the k-th field of its class the id -(k + 1). */
  lemma HelperStatementIds(fields: seq<FieldElement>, generatedModels: seq<string>, a: AdapterClass)
    ensures var models := FieldsOf(fields, a);
      var s := ExpectedHelper(fields, generatedModels, a).statements;
      |s| == |models|
      && forall k :: 0 <= k < |models| ==>
        s[k] == AssignNewModel(models[k].fieldName, ResolvedTypeName(models[k].typeName, generatedModels), -(k + 1))
  {
    ModelStatementsIds(ResolveModels(FieldsOf(fields, a), generatedModels), -1);
  }
}
