/** Connector action forms with branches (selectedSubAction, formTemplateFields, connectorVisibleFormFields,
    connectorFormRenderFields and connectorParameterFieldIsVisible in
    apps/browser-demo/src/connectorDrafting.ts). The concrete forms and the rank of a field are parameters. */
module ConnectorForms {
  import opened Sequences
  import opened StableSort
  import Text
  import opened Wrappers

  type Parameters = map<string, string>

  // showWhen maps a parameter to the values that show the field; a single value is a list of one.
  datatype Field = Field(id: string, select: bool, options: seq<string>, defaultValue: Option<string>,
                         showWhen: map<string, seq<string>>)

  datatype Branch = Branch(id: string, caption: string, fields: seq<Field>)

  datatype SubActions = SubActions(fieldId: string, defaultId: Option<string>, branches: seq<Branch>)

  datatype Form = Form(fields: seq<Field>, subActions: Option<SubActions>)

  // `parameters[key]?.trim() ?? ''`
  function Value(parameters: Parameters, key: string): string {
    if key in parameters then Text.Trim(parameters[key]) else ""
  }

  predicate Fixed(field: Field) {
    field.select && |field.options| == 1
  }

  function FindBranch(branches: seq<Branch>, id: string): (found: Option<Branch>)
    ensures found.Some? ==> found.value in branches && found.value.id == id
    ensures found.None? ==> forall b | b in branches :: b.id != id
  {
    if branches == [] then None
    else if branches[0].id == id then Some(branches[0])
    else FindBranch(branches[1..], id)
  }

  function DefaultBranch(sub: SubActions): (branch: Option<Branch>)
    ensures branch.Some? <==> sub.branches != []
    ensures branch.Some? ==> branch.value in sub.branches
  {
    if sub.branches == [] then None
    else
      var found := FindBranch(sub.branches, sub.defaultId.GetOr(sub.branches[0].id));
      if found.Some? then found else Some(sub.branches[0])
  }

  function SelectedBranch(sub: SubActions, parameters: Parameters): (branch: Option<Branch>)
    ensures branch.Some? <==> sub.branches != []
    ensures branch.Some? ==> branch.value in sub.branches
  {
    var requested := Value(parameters, sub.fieldId);
    var found := FindBranch(sub.branches, requested);
    if requested != "" && found.Some? then found else DefaultBranch(sub)
  }

  function SelectField(sub: SubActions): Field {
    var firstId := if sub.branches == [] then "" else sub.branches[0].id;
    Field(sub.fieldId, true, Map((b: Branch) => b.id, sub.branches), Some(sub.defaultId.GetOr(firstId)), map[])
  }

  predicate IsField(fields: seq<Field>, id: string) {
    exists f | f in fields :: f.id == id
  }

  // A field of a branch that the form shows: not one of the form's own, and with something to choose.
  predicate Offered(form: Form, field: Field) {
    !IsField(form.fields, field.id) && !Fixed(field)
  }

  function OfferedFields(form: Form, branch: Branch): seq<Field> {
    Filter((f: Field) => Offered(form, f), branch.fields)
  }

  function Guarded(fieldId: string, branchId: string): Field -> Field {
    (f: Field) => f.(showWhen := f.showWhen[fieldId := [branchId]])
  }

  function AllGuarded(form: Form, fieldId: string, branches: seq<Branch>): seq<Field> {
    if branches == [] then []
    else Map(Guarded(fieldId, branches[0].id), OfferedFields(form, branches[0])) + AllGuarded(form, fieldId, branches[1..])
  }

  // One list for all branches, each field under the guard of its branch.
  function Flattened(form: Form): seq<Field> {
    if form.subActions.None? then form.fields
    else
      var sub := form.subActions.value;
      [SelectField(sub)] + AllGuarded(form, sub.fieldId, sub.branches) + form.fields
  }

  // The list for the branch that the parameters select.
  function SelectedFields(form: Form, parameters: Parameters): seq<Field> {
    if form.subActions.None? then form.fields
    else
      var sub := form.subActions.value;
      var branch := SelectedBranch(sub, parameters);
      [SelectField(sub)] + (if branch.Some? then OfferedFields(form, branch.value) else []) + form.fields
  }

  // ---- The loops that build the lists ------------------------------------------------------------

  method FormTemplateFields(form: Form) returns (fields: seq<Field>)
    ensures fields == Flattened(form)
  {
    if form.subActions.None? {
      return form.fields;
    }
    var sub := form.subActions.value;
    var branchFields := GuardedFields(form, sub.fieldId, sub.branches);
    return [SelectField(sub)] + branchFields + form.fields;
  }

  method GuardedFields(form: Form, fieldId: string, branches: seq<Branch>) returns (branchFields: seq<Field>)
    ensures branchFields == AllGuarded(form, fieldId, branches)
  {
    hide OfferedFields, Map, Guarded, AllGuarded;
    branchFields := [];
    assert branches[0..] == branches;
    for i := 0 to |branches|
      invariant branchFields + AllGuarded(form, fieldId, branches[i..]) == AllGuarded(form, fieldId, branches)
    {
      AllGuardedStep(form, fieldId, branches, i);
      branchFields := PushBranch(form, fieldId, branches[i], branchFields);
    }
    NoBranchIsLeft(form, fieldId, branches);
  }

  lemma AllGuardedStep(form: Form, fieldId: string, branches: seq<Branch>, i: nat)
    requires i < |branches|
    ensures AllGuarded(form, fieldId, branches[i..])
      == Map(Guarded(fieldId, branches[i].id), OfferedFields(form, branches[i])) + AllGuarded(form, fieldId, branches[i + 1..])
  {
    assert branches[i..][1..] == branches[i + 1..];
  }

  lemma NoBranchIsLeft(form: Form, fieldId: string, branches: seq<Branch>)
    ensures AllGuarded(form, fieldId, branches[|branches|..]) == []
  {
  }

  method PushBranch(form: Form, fieldId: string, branch: Branch, before: seq<Field>) returns (branchFields: seq<Field>)
    ensures branchFields == before + Map(Guarded(fieldId, branch.id), OfferedFields(form, branch))
  {
    hide Map, Offered;
    branchFields := before;
    AllAreLeft(form, branch);
    for j := 0 to |branch.fields|
      invariant branchFields + GuardedRest(form, fieldId, branch, j) == before + GuardedRest(form, fieldId, branch, 0)
    {
      GuardedRestStep(form, fieldId, branch, j);
      if Offered(form, branch.fields[j]) {
        branchFields := branchFields + [Guarded(fieldId, branch.id)(branch.fields[j])];
      }
    }
    NoneIsLeft(form, fieldId, branch);
  }

  ghost function GuardedRest(form: Form, fieldId: string, branch: Branch, j: nat): seq<Field>
    requires j <= |branch.fields|
  {
    Map(Guarded(fieldId, branch.id), OfferedRest(form, branch.fields, j))
  }

  lemma AllAreLeft(form: Form, branch: Branch)
    ensures OfferedRest(form, branch.fields, 0) == OfferedFields(form, branch)
  {
  }

  lemma NoneIsLeft(form: Form, fieldId: string, branch: Branch)
    ensures GuardedRest(form, fieldId, branch, |branch.fields|) == []
  {
  }

  lemma GuardedRestStep(form: Form, fieldId: string, branch: Branch, j: nat)
    requires j < |branch.fields|
    ensures GuardedRest(form, fieldId, branch, j)
      == (if Offered(form, branch.fields[j]) then [Guarded(fieldId, branch.id)(branch.fields[j])] else [])
         + GuardedRest(form, fieldId, branch, j + 1)
  {
    OfferedRestStep(form, branch.fields, j);
  }

  ghost function OfferedRest(form: Form, fields: seq<Field>, j: nat): seq<Field>
    requires j <= |fields|
  {
    Filter((f: Field) => Offered(form, f), fields[j..])
  }

  lemma OfferedRestStep(form: Form, fields: seq<Field>, j: nat)
    requires j < |fields|
    ensures OfferedRest(form, fields, j)
      == (if Offered(form, fields[j]) then [fields[j]] else []) + OfferedRest(form, fields, j + 1)
  {
    Next(fields, j);
    FilterFirst((f: Field) => Offered(form, f), fields[j..]);
  }

  method ConnectorVisibleFormFields(form: Form, parameters: Parameters) returns (fields: seq<Field>)
    ensures fields == SelectedFields(form, parameters)
  {
    if form.subActions.None? {
      return form.fields;
    }
    var sub := form.subActions.value;
    fields := [SelectField(sub)];
    var branch := SelectedBranch(sub, parameters);
    if branch.Some? {
      fields := PushOffered(form, branch.value, fields);
    } else {
      NoneThen(fields);
    }
    fields := fields + form.fields;
  }

  method PushOffered(form: Form, branch: Branch, before: seq<Field>) returns (fields: seq<Field>)
    ensures fields == before + OfferedFields(form, branch)
  {
    fields := before;
    AllAreLeft(form, branch);
    for j := 0 to |branch.fields|
      invariant fields + OfferedRest(form, branch.fields, j) == before + OfferedFields(form, branch)
    {
      OfferedRestStep(form, branch.fields, j);
      hide OfferedRest, OfferedFields, Offered;
      if Offered(form, branch.fields[j]) {
        Assoc(fields, [branch.fields[j]], OfferedRest(form, branch.fields, j + 1));
        fields := fields + [branch.fields[j]];
      } else {
        NoneThen(OfferedRest(form, branch.fields, j + 1));
      }
    }
    assert OfferedRest(form, branch.fields, |branch.fields|) == [];
    NoneThen(fields);
  }

  // ---- Which fields there are --------------------------------------------------------------------------

  predicate DistinctIds(branches: seq<Branch>) {
    forall i, j | 0 <= i < j < |branches| :: branches[i].id != branches[j].id
  }

  predicate NamesABranch(sub: SubActions, parameters: Parameters) {
    Value(parameters, sub.fieldId) != "" && exists b | b in sub.branches :: b.id == Value(parameters, sub.fieldId)
  }

  /** The branch that the parameter names, else the default one, else the first. */
  lemma SelectedBranchIff(sub: SubActions, parameters: Parameters, branch: Branch)
    requires DistinctIds(sub.branches) && branch in sub.branches
    ensures SelectedBranch(sub, parameters) == Some(branch) <==>
      if NamesABranch(sub, parameters) then branch.id == Value(parameters, sub.fieldId)
      else if sub.defaultId.Some? && exists b | b in sub.branches :: b.id == sub.defaultId.value
      then branch.id == sub.defaultId.value
      else branch == sub.branches[0]
  {
    SameIdSameBranch(sub.branches);
    hide Value, DistinctIds;
    assert sub.branches[0] in sub.branches;
  }

  lemma SameIdSameBranch(branches: seq<Branch>)
    requires DistinctIds(branches)
    ensures forall a, b | a in branches && b in branches :: a.id == b.id <==> a == b
  {
  }

  // A branch's fields without those that the form has itself and those that offer one option only.
  function Kept(own: seq<Field>, fields: seq<Field>): seq<Field> {
    if fields == [] then []
    else
      var f := fields[0];
      (if (f.select && |f.options| == 1) || exists o | o in own :: o.id == f.id then [] else [f]) + Kept(own, fields[1..])
  }

  lemma {:induction false} OfferedAreKept(form: Form, fields: seq<Field>)
    ensures Filter((f: Field) => Offered(form, f), fields) == Kept(form.fields, fields)
  {
    if fields != [] {
      OfferedAreKept(form, fields[1..]);
      FilterFirst((f: Field) => Offered(form, f), fields);
    }
  }

  /** A form with branches starts with a choice between them, and goes on with what is kept of the selected branch's
      fields and the fields of its own, all in their order. */
  lemma SelectedFormIs(form: Form, parameters: Parameters)
    requires form.subActions.Some?
    ensures var sub, fields := form.subActions.value, SelectedFields(form, parameters);
      && fields != [] && fields[0].id == sub.fieldId && fields[0].select && fields[0].showWhen == map[]
      && |fields[0].options| == |sub.branches| && (forall i | 0 <= i < |sub.branches| :: fields[0].options[i] == sub.branches[i].id)
      && (sub.branches != [] ==> fields[0].defaultValue == Some(sub.defaultId.GetOr(sub.branches[0].id)))
      && var branch := SelectedBranch(sub, parameters);
        fields[1..] == (if branch.Some? then Kept(form.fields, branch.value.fields) else []) + form.fields
  {
    var sub := form.subActions.value;
    var branch := SelectedBranch(sub, parameters);
    if branch.Some? {
      OfferedAreKept(form, branch.value.fields);
    }
    hide Kept, Filter, Offered, SelectedBranch;
    var rest := (if branch.Some? then OfferedFields(form, branch.value) else []) + form.fields;
    Assoc([SelectField(sub)], if branch.Some? then OfferedFields(form, branch.value) else [], form.fields);
    assert ([SelectField(sub)] + rest)[1..] == rest;
  }

  // ---- Flattening keeps the meaning -----------------------------------------------------------------

  predicate Admits(field: Field, parameters: Parameters, key: string) {
    key in field.showWhen ==> Value(parameters, key) in field.showWhen[key]
  }

  predicate IsVisible(field: Field, parameters: Parameters) {
    forall key | key in field.showWhen :: Admits(field, parameters, key)
  }

  function Visible(parameters: Parameters): Field -> bool {
    (f: Field) => IsVisible(f, parameters)
  }

  function WithoutGuards(f: Field): Field {
    f.(showWhen := map[])
  }

  // What the user sees of a list of fields.
  function Shown(parameters: Parameters, fields: seq<Field>): seq<Field> {
    Map(WithoutGuards, Filter(Visible(parameters), fields))
  }

  // The flattening puts the branch's guard in the place of a guard that the field has on the same
  // parameter. That shows a field which only its own guard on that parameter hides.
  predicate Exposed(field: Field, parameters: Parameters, fieldId: string) {
    && !Admits(field, parameters, fieldId)
    && forall key | key in field.showWhen && key != fieldId :: Admits(field, parameters, key)
  }

  lemma {:induction false} ShownConcat(parameters: Parameters, xs: seq<Field>, ys: seq<Field>)
    ensures Shown(parameters, xs + ys) == Shown(parameters, xs) + Shown(parameters, ys)
  {
    FilterConcat(Visible(parameters), xs, ys);
    hide Filter;
    MapConcat(WithoutGuards, Filter(Visible(parameters), xs), Filter(Visible(parameters), ys));
  }

  lemma ShownOne(parameters: Parameters, field: Field)
    ensures Shown(parameters, [field]) == if IsVisible(field, parameters) then [WithoutGuards(field)] else []
  {
    assert [field][1..] == [];
    assert Filter(Visible(parameters), [field]) == if Visible(parameters)(field) then [field] else [];
    assert Map(WithoutGuards, [field]) == [WithoutGuards(field)];
  }

  lemma GuardedVisibility(field: Field, parameters: Parameters, fieldId: string, branchId: string)
    ensures IsVisible(Guarded(fieldId, branchId)(field), parameters) <==>
      Value(parameters, fieldId) == branchId
      && forall key | key in field.showWhen && key != fieldId :: Admits(field, parameters, key)
  {
    var g := Guarded(fieldId, branchId)(field);
    assert Admits(g, parameters, fieldId) <==> Value(parameters, fieldId) == branchId;
    forall key | key != fieldId ensures Admits(g, parameters, key) <==> Admits(field, parameters, key) {
    }
  }

  // Fields of a branch that is not selected are hidden by its guard.
  lemma {:induction false} OtherBranchesAreHidden(parameters: Parameters, fieldId: string, branchId: string, fields: seq<Field>)
    requires Value(parameters, fieldId) != branchId
    ensures Shown(parameters, Map(Guarded(fieldId, branchId), fields)) == []
  {
    if fields != [] {
      GuardedVisibility(fields[0], parameters, fieldId, branchId);
      var guarded := Map(Guarded(fieldId, branchId), fields);
      assert guarded[1..] == Map(Guarded(fieldId, branchId), fields[1..]);
      OtherBranchesAreHidden(parameters, fieldId, branchId, fields[1..]);
    }
  }

  // Fields of the selected branch are shown as they are without its guard, but for those it exposes.
  lemma {:induction false} SelectedBranchIsShown(parameters: Parameters, fieldId: string, branchId: string, fields: seq<Field>)
    requires Value(parameters, fieldId) == branchId
    ensures var guarded, plain := Shown(parameters, Map(Guarded(fieldId, branchId), fields)), Shown(parameters, fields);
      && |guarded| >= |plain|
      && (guarded == plain <==> forall f | f in fields :: !Exposed(f, parameters, fieldId))
      && (|guarded| == |plain| ==> guarded == plain)
  {
    if fields != [] {
      var guarded := Map(Guarded(fieldId, branchId), fields);
      assert guarded[1..] == Map(Guarded(fieldId, branchId), fields[1..]);
      assert fields == [fields[0]] + fields[1..] && guarded == [guarded[0]] + guarded[1..];
      ShownConcat(parameters, [fields[0]], fields[1..]);
      ShownConcat(parameters, [guarded[0]], guarded[1..]);
      SelectedBranchIsShown(parameters, fieldId, branchId, fields[1..]);
      FirstIsShown(parameters, fieldId, branchId, fields[0]);
    }
  }

  lemma FirstIsShown(parameters: Parameters, fieldId: string, branchId: string, field: Field)
    requires Value(parameters, fieldId) == branchId
    ensures var guarded, plain := Shown(parameters, [Guarded(fieldId, branchId)(field)]), Shown(parameters, [field]);
      if Exposed(field, parameters, fieldId) then |guarded| == 1 && plain == [] else guarded == plain
  {
    GuardedVisibility(field, parameters, fieldId, branchId);
    ShownOne(parameters, field);
    ShownOne(parameters, Guarded(fieldId, branchId)(field));
    assert IsVisible(field, parameters) <==>
      Admits(field, parameters, fieldId) && forall key | key in field.showWhen && key != fieldId :: Admits(field, parameters, key);
  }

  lemma {:induction false} OnlyTheSelectedBranchIsShown(form: Form, parameters: Parameters, fieldId: string, branches: seq<Branch>)
    requires DistinctIds(branches)
    ensures var found := FindBranch(branches, Value(parameters, fieldId));
      Shown(parameters, AllGuarded(form, fieldId, branches)) ==
      if found.None? then []
      else Shown(parameters, Map(Guarded(fieldId, found.value.id), OfferedFields(form, found.value)))
  {
    if branches != [] {
      var first := Map(Guarded(fieldId, branches[0].id), OfferedFields(form, branches[0]));
      var rest := AllGuarded(form, fieldId, branches[1..]);
      ShownConcat(parameters, first, rest);
      OnlyTheSelectedBranchIsShown(form, parameters, fieldId, branches[1..]);
      if branches[0].id != Value(parameters, fieldId) {
        OtherBranchesAreHidden(parameters, fieldId, branches[0].id, OfferedFields(form, branches[0]));
      }
    }
  }

  /** When the parameter names a branch, the flattened form shows the fields of the selected branch's form, in
      their order, if and only if the flattening exposes no field of that branch. */
  lemma FlatteningKeepsMeaning(form: Form, parameters: Parameters)
    requires form.subActions.Some? && DistinctIds(form.subActions.value.branches)
    requires NamesABranch(form.subActions.value, parameters)
    ensures var sub := form.subActions.value;
      Shown(parameters, Flattened(form)) == Shown(parameters, SelectedFields(form, parameters)) <==>
      forall f | f in Kept(form.fields, SelectedBranch(sub, parameters).value.fields) :: !Exposed(f, parameters, sub.fieldId)
  {
    var sub := form.subActions.value;
    var branch := SelectedBranch(sub, parameters).value;
    assert FindBranch(sub.branches, Value(parameters, sub.fieldId)) == Some(branch);
    var offered := OfferedFields(form, branch);
    OfferedAreKept(form, branch.fields);
    hide SelectedBranch, FindBranch, DistinctIds, Value, Shown, Filter, OfferedFields, AllGuarded;
    ShownOfBranch(form, parameters, sub, branch);
    SelectedBranchIsShown(parameters, sub.fieldId, branch.id, offered);
    hide Offered, Exposed, Admits;
    var guarded := Shown(parameters, Map(Guarded(sub.fieldId, branch.id), offered));
    SameMiddle(Shown(parameters, [SelectField(sub)]), guarded, Shown(parameters, offered), Shown(parameters, form.fields));
  }

  /** So it keeps the meaning of every form in which no branch field is guarded on the branch parameter. */
  lemma UnguardedFormsFlatten(form: Form, parameters: Parameters)
    requires form.subActions.Some? && DistinctIds(form.subActions.value.branches)
    requires NamesABranch(form.subActions.value, parameters)
    requires forall b, f | b in form.subActions.value.branches && f in b.fields :: form.subActions.value.fieldId !in f.showWhen
    ensures Shown(parameters, Flattened(form)) == Shown(parameters, SelectedFields(form, parameters))
  {
    var sub := form.subActions.value;
    FlatteningKeepsMeaning(form, parameters);
    hide Shown, Flattened, SelectedFields, SelectedBranch;
    KeptAreFields(form.fields, SelectedBranch(sub, parameters).value.fields);
    forall f | f in Kept(form.fields, SelectedBranch(sub, parameters).value.fields) ensures !Exposed(f, parameters, sub.fieldId) {
      assert sub.fieldId !in f.showWhen;
    }
  }

  lemma {:induction false} KeptAreFields(own: seq<Field>, fields: seq<Field>)
    ensures forall f | f in Kept(own, fields) :: f in fields
  {
    if fields != [] {
      KeptAreFields(own, fields[1..]);
    }
  }

  // A field of branch "a" that its own guard on the branch parameter confines to "b".
  function Misguarded(fieldId: string): Field {
    Field("x", false, [], None, map[fieldId := ["b"]])
  }

  function MisguardedForm(fieldId: string): Form {
    Form([], Some(SubActions(fieldId, None, [Branch("a", "A", [Misguarded(fieldId)])])))
  }

  /** A form for which it does not: the flattened form shows a field that the branch's form hides. */
  lemma OwnGuardIsLost(fieldId: string)
    ensures var form, parameters := MisguardedForm(fieldId), map[fieldId := "a"];
      Shown(parameters, Flattened(form)) != Shown(parameters, SelectedFields(form, parameters))
  {
    var form, parameters := MisguardedForm(fieldId), map[fieldId := "a"];
    var sub, field := form.subActions.value, Misguarded(fieldId);
    Text.TrimFixed("a");
    assert Value(parameters, fieldId) == "a" && "a" != "b" by {
      assert "a"[0] != "b"[0];
    }
    var branch := sub.branches[0];
    assert branch in sub.branches && branch.fields[0] == field;
    assert SelectedBranch(sub, parameters).value == branch;
    assert Exposed(field, parameters, fieldId) && Offered(form, field);
    hide Shown, Flattened, SelectedFields, Exposed, Offered, SelectedBranch;
    FlatteningKeepsMeaning(form, parameters);
    assert field in branch.fields;
  }

  lemma SameMiddle<T>(a: seq<T>, b: seq<T>, c: seq<T>, d: seq<T>)
    ensures a + b + d == a + c + d <==> b == c
  {
    if a + b + d == a + c + d {
      assert |b| == |c|;
      assert (a + b + d)[|a|..|a| + |b|] == b && (a + c + d)[|a|..|a| + |c|] == c;
    }
  }

  lemma ShownOfBranch(form: Form, parameters: Parameters, sub: SubActions, branch: Branch)
    requires form.subActions == Some(sub) && DistinctIds(sub.branches) && SelectedBranch(sub, parameters) == Some(branch)
    requires FindBranch(sub.branches, Value(parameters, sub.fieldId)) == Some(branch)
    ensures Shown(parameters, Flattened(form)) == Shown(parameters, [SelectField(sub)])
      + Shown(parameters, Map(Guarded(sub.fieldId, branch.id), OfferedFields(form, branch))) + Shown(parameters, form.fields)
    ensures Shown(parameters, SelectedFields(form, parameters)) == Shown(parameters, [SelectField(sub)])
      + Shown(parameters, OfferedFields(form, branch)) + Shown(parameters, form.fields)
  {
    hide SelectedBranch, FindBranch, DistinctIds, Value, Shown, OfferedFields, AllGuarded, SelectField;
    var offered := OfferedFields(form, branch);
    var all := AllGuarded(form, sub.fieldId, sub.branches);
    OnlyTheSelectedBranchIsShown(form, parameters, sub.fieldId, sub.branches);
    ShownConcat(parameters, [SelectField(sub)] + all, form.fields);
    ShownConcat(parameters, [SelectField(sub)], all);
    ShownConcat(parameters, [SelectField(sub)] + offered, form.fields);
    ShownConcat(parameters, [SelectField(sub)], offered);
  }

  /** When it names none, the flattened form shows no field of any branch. */
  lemma UnknownBranchShowsNone(form: Form, parameters: Parameters)
    requires form.subActions.Some? && DistinctIds(form.subActions.value.branches)
    requires forall b | b in form.subActions.value.branches :: b.id != Value(parameters, form.subActions.value.fieldId)
    ensures Shown(parameters, Flattened(form)) == Shown(parameters, [SelectField(form.subActions.value)] + form.fields)
  {
    var sub := form.subActions.value;
    var all := AllGuarded(form, sub.fieldId, sub.branches);
    OnlyTheSelectedBranchIsShown(form, parameters, sub.fieldId, sub.branches);
    ShownConcat(parameters, [SelectField(sub)] + all, form.fields);
    ShownConcat(parameters, [SelectField(sub)], all);
    ShownConcat(parameters, [SelectField(sub)], form.fields);
  }

  // ---- Rendering order -------------------------------------------------------------------------------

  datatype Ranked = Ranked(field: Field, index: nat)

  function RankThenIndex(rank: Field -> int): (Ranked, Ranked) -> bool {
    (l: Ranked, r: Ranked) =>
      rank(l.field) < rank(r.field) || (rank(l.field) == rank(r.field) && l.index <= r.index)
  }

  function ByRank(rank: Field -> int): (Field, Field) -> bool {
    (l: Field, r: Field) => rank(l) <= rank(r)
  }

  function FieldOf(entry: Ranked): Field {
    entry.field
  }

  function Numbered(fields: seq<Field>): seq<Ranked> {
    seq(|fields|, i requires 0 <= i < |fields| => Ranked(fields[i], i))
  }

  function RenderFields(rank: Field -> int, form: Form, parameters: Parameters): seq<Field> {
    Map(FieldOf, Sort(Numbered(SelectedFields(form, parameters)), RankThenIndex(rank)))
  }

  /** Sorting the numbered fields and dropping the numbers is a stable sort: the selected form's fields,
      each once, by rank, and fields of one rank in the form's order. */
  lemma RenderingIsAStableSort(rank: Field -> int, form: Form, parameters: Parameters, level: int)
    ensures var fields, rendered := SelectedFields(form, parameters), RenderFields(rank, form, parameters);
      && multiset(rendered) == multiset(fields)
      && Sorted(rendered, ByRank(rank))
      && Filter((f: Field) => rank(f) == level, rendered) == Filter((f: Field) => rank(f) == level, fields)
  {
    var fields := SelectedFields(form, parameters);
    var numbered := Numbered(fields);
    assert Map(FieldOf, numbered) == fields;
    SortMap(FieldOf, numbered, RankThenIndex(rank), ByRank(rank));
    SortPermutes(fields, ByRank(rank));
    SortSorts(fields, ByRank(rank));
    SortIsStable(fields, ByRank(rank), (f: Field) => rank(f) == level);
  }
}
