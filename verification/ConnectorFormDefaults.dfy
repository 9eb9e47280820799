/** Filling a connector form's defaults (applyConnectorSubActionDefaults and
    applySingleSidedLiquidityAmountDefaults in apps/browser-demo/src/connectorDrafting.ts). */
module ConnectorFormDefaults {
  import opened ConnectorForms
  import opened Text
  import opened Wrappers

  const AMOUNT := "amount"
  const AMOUNT_SIDE := "amountSide"
  const TOKEN_A := "tokenAAmount"
  const TOKEN_B := "tokenBAmount"
  const MAX_A := "maxTokenAAmount"
  const MAX_B := "maxTokenBAmount"

  function DefaultOf(field: Field): Option<string> {
    if field.defaultValue.Some? then field.defaultValue
    else if Fixed(field) then Some(field.options[0])
    else None
  }

  function FillField(parameters: Parameters, field: Field): Parameters {
    var default := DefaultOf(field);
    if default.Some? && (Fixed(field) || Value(parameters, field.id) == "")
    then parameters[field.id := default.value] else parameters
  }

  function Fill(parameters: Parameters, fields: seq<Field>): Parameters
    decreases |fields|
  {
    if fields == [] then parameters else Fill(FillField(parameters, fields[0]), fields[1..])
  }

  predicate TakesOneSide(branch: Branch) {
    IsField(branch.fields, AMOUNT_SIDE) && IsField(branch.fields, TOKEN_A) && IsField(branch.fields, TOKEN_B)
  }

  predicate OnSideB(parameters: Parameters) {
    AMOUNT_SIDE in parameters && parameters[AMOUNT_SIDE] == "tokenB"
  }

  function SelectedAmount(parameters: Parameters): string {
    if OnSideB(parameters) then TOKEN_B else TOKEN_A
  }

  function OppositeAmount(parameters: Parameters): string {
    if OnSideB(parameters) then TOKEN_A else TOKEN_B
  }

  function SelectedMax(parameters: Parameters): string {
    if OnSideB(parameters) then MAX_A else MAX_B
  }

  function OppositeMax(parameters: Parameters): string {
    if OnSideB(parameters) then MAX_B else MAX_A
  }

  predicate CopiesAmount(parameters: Parameters) {
    Value(parameters, AMOUNT) != "" && Value(parameters, TOKEN_A) == "" && Value(parameters, TOKEN_B) == ""
  }

  function OneSided(branch: Branch, parameters: Parameters): Parameters {
    if !TakesOneSide(branch) then parameters
    else
      var copied := if CopiesAmount(parameters) then parameters[SelectedAmount(parameters) := Value(parameters, AMOUNT)]
                    else parameters;
      copied - {OppositeAmount(parameters), OppositeMax(parameters)}
             - (if IsField(branch.fields, SelectedMax(parameters)) then {} else {SelectedMax(parameters)})
  }

  function Named(sub: SubActions, branch: Branch, parameters: Parameters): Parameters {
    var named := if Value(parameters, sub.fieldId) == "" then parameters[sub.fieldId := branch.id] else parameters;
    named[sub.fieldId + "Label" := branch.caption]
  }

  function Filled(sub: SubActions, branch: Branch, parameters: Parameters): Parameters {
    Fill(Named(sub, branch, parameters), branch.fields)
  }

  function WithDefaults(sub: SubActions, parameters: Parameters): Parameters {
    var branch := SelectedBranch(sub, parameters);
    if branch.None? then parameters else OneSided(branch.value, Filled(sub, branch.value, parameters))
  }

  method ApplyConnectorSubActionDefaults(form: Form, parameters: Parameters) returns (next: Parameters)
    ensures next == if form.subActions.None? then parameters else WithDefaults(form.subActions.value, parameters)
  {
    next := parameters;
    if form.subActions.None? {
      return;
    }
    var sub := form.subActions.value;
    var branch := SelectedBranch(sub, parameters);
    if branch.None? {
      return;
    }
    if Value(next, sub.fieldId) == "" {
      next := next[sub.fieldId := branch.value.id];
    }
    next := next[sub.fieldId + "Label" := branch.value.caption];
    var fields := branch.value.fields;
    for i := 0 to |fields|
      invariant Fill(next, fields[i..]) == Filled(sub, branch.value, parameters)
    {
      hide Value, DefaultOf, Fixed;
      assert fields[i..][1..] == fields[i + 1..];
      var default := DefaultOf(fields[i]);
      if default.Some? {
        if Fixed(fields[i]) || Value(next, fields[i].id) == "" {
          next := next[fields[i].id := default.value];
        }
      }
    }
    next := ApplyOneSidedDefaults(branch.value, next);
  }

  method ApplyOneSidedDefaults(branch: Branch, parameters: Parameters) returns (next: Parameters)
    ensures next == OneSided(branch, parameters)
  {
    hide Value, IsField;
    next := parameters;
    if !IsField(branch.fields, AMOUNT_SIDE) || !IsField(branch.fields, TOKEN_A) || !IsField(branch.fields, TOKEN_B) {
      return;
    }
    var onB := OnSideB(parameters);
    var selectedAmount := if onB then TOKEN_B else TOKEN_A;
    var oppositeAmount := if onB then TOKEN_A else TOKEN_B;
    var selectedMax := if onB then MAX_A else MAX_B;
    var oppositeMax := if onB then MAX_B else MAX_A;
    if Value(next, AMOUNT) != "" && Value(next, TOKEN_A) == "" && Value(next, TOKEN_B) == "" {
      next := next[selectedAmount := Value(next, AMOUNT)];
    }
    next := next - {oppositeAmount};
    if !IsField(branch.fields, selectedMax) {
      next := next - {selectedMax};
    }
    next := next - {oppositeMax};
  }

  // ---- What filling does to each parameter ---------------------------------------------------------

  function At(parameters: Parameters, key: string): Option<string> {
    if key in parameters then Some(parameters[key]) else None
  }

  lemma SameParameters(p: Parameters, q: Parameters)
    requires forall key :: At(p, key) == At(q, key)
    ensures p == q
  {
    forall key ensures key in p <==> key in q {
      assert At(p, key) == At(q, key);
    }
    forall key | key in p ensures p[key] == q[key] {
      assert At(p, key) == At(q, key);
    }
  }

  function FieldAt(fields: seq<Field>, key: string): (found: Option<Field>)
    ensures found.Some? <==> IsField(fields, key)
    ensures found.Some? ==> found.value in fields && found.value.id == key
  {
    if fields == [] then None
    else if fields[0].id == key then Some(fields[0])
    else
      assert IsField(fields[1..], key) ==> IsField(fields, key);
      FieldAt(fields[1..], key)
  }

  predicate Blank(value: Option<string>) {
    value.None? || Trim(value.value) == ""
  }

  function FilledValue(value: Option<string>, field: Option<Field>): Option<string> {
    if field.Some? && DefaultOf(field.value).Some? && (Fixed(field.value) || Blank(value))
    then DefaultOf(field.value) else value
  }

  predicate DistinctFields(fields: seq<Field>) {
    forall i, j | 0 <= i < j < |fields| :: fields[i].id != fields[j].id
  }

  lemma {:induction false} FillAt(parameters: Parameters, fields: seq<Field>, key: string)
    requires DistinctFields(fields)
    ensures At(Fill(parameters, fields), key) == FilledValue(At(parameters, key), FieldAt(fields, key))
    decreases |fields|
  {
    hide Trim, DefaultOf, Fixed;
    if fields != [] {
      var first := FillField(parameters, fields[0]);
      FillAt(first, fields[1..], key);
      if fields[0].id == key {
        forall f | f in fields[1..] ensures f.id != key {
        }
      }
    }
  }

  lemma KeysDiffer()
    ensures TOKEN_A != TOKEN_B && MAX_A != MAX_B
    ensures {AMOUNT, AMOUNT_SIDE} !! {TOKEN_A, TOKEN_B, MAX_A, MAX_B} && {TOKEN_A, TOKEN_B} !! {MAX_A, MAX_B}
  {
    assert TOKEN_A[5] != TOKEN_B[5] && MAX_A[8] != MAX_B[8];
    assert |AMOUNT| == 6 && |AMOUNT_SIDE| == 10 && |TOKEN_A| == |TOKEN_B| == 12 && |MAX_A| == |MAX_B| == 15;
  }

  function OneSidedValue(branch: Branch, parameters: Parameters, key: string): Option<string> {
    if !TakesOneSide(branch) then At(parameters, key)
    else if key == OppositeAmount(parameters) || key == OppositeMax(parameters) then None
    else if key == SelectedMax(parameters) && !IsField(branch.fields, key) then None
    else if key == SelectedAmount(parameters) && CopiesAmount(parameters) then Some(Value(parameters, AMOUNT))
    else At(parameters, key)
  }

  lemma OneSidedAt(branch: Branch, parameters: Parameters, key: string)
    ensures At(OneSided(branch, parameters), key) == OneSidedValue(branch, parameters, key)
  {
    KeysDiffer();
    hide Value, IsField;
  }

  predicate KeysApart(sub: SubActions, branch: Branch) {
    && {sub.fieldId, sub.fieldId + "Label"} !! {TOKEN_A, TOKEN_B, MAX_A, MAX_B}
    && !IsField(branch.fields, sub.fieldId) && !IsField(branch.fields, sub.fieldId + "Label")
  }

  predicate WellFormed(sub: SubActions) {
    && DistinctIds(sub.branches)
    && forall b | b in sub.branches :: b.id != "" && Trim(b.id) == b.id && DistinctFields(b.fields) && KeysApart(sub, b)
  }

  // The amount stands on the wrong side: the first filling drops it, and only the next one takes `amount`
  // for the selected side. `amounts` are the parameters once the fields have their defaults.
  predicate StaleOpposite(branch: Branch, amounts: Parameters) {
    && TakesOneSide(branch) && Value(amounts, AMOUNT) != ""
    && Value(amounts, SelectedAmount(amounts)) == "" && Value(amounts, OppositeAmount(amounts)) != ""
    && Blank(FilledValue(None, FieldAt(branch.fields, OppositeAmount(amounts))))
  }

  lemma OneSidedLeaves(branch: Branch, parameters: Parameters, key: string)
    requires key !in {TOKEN_A, TOKEN_B, MAX_A, MAX_B}
    ensures At(OneSided(branch, parameters), key) == At(parameters, key)
  {
    OneSidedAt(branch, parameters, key);
    hide OneSided, IsField, Value, At;
  }

  lemma FillLeaves(parameters: Parameters, fields: seq<Field>, key: string)
    requires DistinctFields(fields) && !IsField(fields, key)
    ensures At(Fill(parameters, fields), key) == At(parameters, key)
  {
    FillAt(parameters, fields, key);
    hide Fill, DefaultOf, Fixed, Blank;
  }

  lemma FillingKeeps(sub: SubActions, branch: Branch, parameters: Parameters, key: string)
    requires WellFormed(sub) && branch in sub.branches && (key == sub.fieldId || key == sub.fieldId + "Label")
    ensures At(OneSided(branch, Fill(parameters, branch.fields)), key) == At(parameters, key)
  {
    hide At, OneSided, Fill, IsField, DistinctFields, DistinctIds, Trim;
    assert KeysApart(sub, branch) && DistinctFields(branch.fields);
    hide WellFormed;
    FillLeaves(parameters, branch.fields, key);
    OneSidedLeaves(branch, Fill(parameters, branch.fields), key);
  }

  lemma LabelKeyDiffers(sub: SubActions)
    ensures sub.fieldId + "Label" != sub.fieldId
  {
    assert |sub.fieldId + "Label"| == |sub.fieldId| + 5;
  }

  lemma SelectedAgain(sub: SubActions, p: Parameters, q: Parameters)
    requires WellFormed(sub) && sub.branches != []
    requires var branch := SelectedBranch(sub, p).value;
      Value(q, sub.fieldId) == if Value(p, sub.fieldId) == "" then branch.id else Value(p, sub.fieldId)
    ensures SelectedBranch(sub, q) == SelectedBranch(sub, p)
  {
    var branch := SelectedBranch(sub, p).value;
    hide Value, DefaultBranch, Trim;
    FoundById(sub.branches, branch);
    assert branch.id != "";
  }

  lemma ValueNamed(sub: SubActions, branch: Branch, parameters: Parameters)
    requires Trim(branch.id) == branch.id
    ensures var named := Named(sub, branch, parameters);
      && Value(named, sub.fieldId) == (if Value(parameters, sub.fieldId) == "" then branch.id else Value(parameters, sub.fieldId))
      && At(named, sub.fieldId + "Label") == Some(branch.caption)
  {
    hide Trim;
    LabelKeyDiffers(sub);
  }

  lemma ValueAt(p: Parameters, q: Parameters, key: string)
    requires At(p, key) == At(q, key)
    ensures Value(p, key) == Value(q, key)
  {
  }

  lemma NamedIsFixed(sub: SubActions, branch: Branch, next: Parameters)
    requires Value(next, sub.fieldId) != "" && At(next, sub.fieldId + "Label") == Some(branch.caption)
    ensures Named(sub, branch, next) == next
  {
    hide Value;
  }

  // After one filling the branch is still selected, and its name and caption are in place.
  lemma NamedOnce(sub: SubActions, parameters: Parameters)
    requires WellFormed(sub) && sub.branches != []
    ensures var branch := SelectedBranch(sub, parameters).value; var next := WithDefaults(sub, parameters);
      && SelectedBranch(sub, next) == Some(branch) && Named(sub, branch, next) == next
  {
    var branch := SelectedBranch(sub, parameters).value;
    assert branch.id != "" && Trim(branch.id) == branch.id;
    hide WellFormed, OneSided, Fill, Trim, Value, Named, At, SelectedBranch;
    var named := Named(sub, branch, parameters);
    var next := WithDefaults(sub, parameters);
    ValueNamed(sub, branch, parameters);
    FillingKeeps(sub, branch, named, sub.fieldId);
    FillingKeeps(sub, branch, named, sub.fieldId + "Label");
    ValueAt(next, named, sub.fieldId);
    SelectedAgain(sub, parameters, next);
    NamedIsFixed(sub, branch, next);
  }

  lemma {:induction false} FoundById(branches: seq<Branch>, branch: Branch)
    requires DistinctIds(branches) && branch in branches
    ensures FindBranch(branches, branch.id) == Some(branch)
  {
    if branches[0] != branch {
      var i :| 0 <= i < |branches| && branches[i] == branch;
      assert branches[0].id != branches[i].id;
      FoundById(branches[1..], branch);
    }
  }

  // ---- Filling twice ---------------------------------------------------------------------------------

  ghost predicate Full(fields: seq<Field>, parameters: Parameters) {
    forall key :: FilledValue(At(parameters, key), FieldAt(fields, key)) == At(parameters, key)
  }

  lemma FillIsFull(parameters: Parameters, fields: seq<Field>)
    requires DistinctFields(fields)
    ensures Full(fields, Fill(parameters, fields))
  {
    forall key ensures var next := Fill(parameters, fields);
      FilledValue(At(next, key), FieldAt(fields, key)) == At(next, key)
    {
      FillAt(parameters, fields, key);
      hide Fill, DefaultOf, Fixed, At;
    }
  }

  lemma BlankValue(parameters: Parameters, key: string)
    ensures Value(parameters, key) == "" <==> Blank(At(parameters, key))
    ensures key in parameters ==> Value(parameters, key) == Trim(At(parameters, key).value)
  {
  }

  // The parameters that the copying looks at, after one filling and a second round of field defaults.
  lemma SecondRound(branch: Branch, amounts: Parameters, key: string)
    requires TakesOneSide(branch) && DistinctFields(branch.fields) && Full(branch.fields, amounts)
    ensures var again := Fill(OneSided(branch, amounts), branch.fields);
      && (key !in {TOKEN_A, TOKEN_B, MAX_A, MAX_B} ==> At(again, key) == At(amounts, key))
      && At(again, key) == FilledValue(OneSidedValue(branch, amounts, key), FieldAt(branch.fields, key))
  {
    hide Fill, OneSided, At, FilledValue, OneSidedValue;
    FillAt(OneSided(branch, amounts), branch.fields, key);
    OneSidedAt(branch, amounts, key);
    if key !in {TOKEN_A, TOKEN_B, MAX_A, MAX_B} {
      OneSidedLeaves(branch, amounts, key);
    }
  }

  lemma SameSide(branch: Branch, amounts: Parameters)
    requires TakesOneSide(branch) && DistinctFields(branch.fields) && Full(branch.fields, amounts)
    ensures var again := Fill(OneSided(branch, amounts), branch.fields);
      OnSideB(again) == OnSideB(amounts) && At(again, AMOUNT) == At(amounts, AMOUNT)
  {
    KeysDiffer();
    SecondRound(branch, amounts, AMOUNT);
    SecondRound(branch, amounts, AMOUNT_SIDE);
    hide Fill, OneSided, Full, TakesOneSide, DistinctFields;
  }

  predicate Copies(amount: Option<string>, selected: Option<string>, opposite: Option<string>) {
    !Blank(amount) && Blank(selected) && Blank(opposite)
  }

  lemma CopiesOf(parameters: Parameters)
    ensures CopiesAmount(parameters) <==>
      Copies(At(parameters, AMOUNT), At(parameters, SelectedAmount(parameters)), At(parameters, OppositeAmount(parameters)))
    ensures !Blank(At(parameters, AMOUNT)) ==>
      var amount := Some(Value(parameters, AMOUNT)); !Blank(amount) && Some(Trim(amount.value)) == amount
  {
    BlankValue(parameters, AMOUNT);
    BlankValue(parameters, TOKEN_A);
    BlankValue(parameters, TOKEN_B);
    if AMOUNT in parameters {
      TrimTwice(parameters[AMOUNT]);
    }
    hide Trim, Value;
  }

  // What a second filling leaves in any parameter but the selected amount is what the first left there.
  lemma OthersAgree(branch: Branch, amounts: Parameters, key: string)
    requires TakesOneSide(branch) && DistinctFields(branch.fields) && Full(branch.fields, amounts)
    requires key != SelectedAmount(amounts)
    ensures var first := OneSided(branch, amounts);
      At(OneSided(branch, Fill(first, branch.fields)), key) == At(first, key)
  {
    SameSide(branch, amounts);
    SecondRound(branch, amounts, key);
    OneSidedAt(branch, amounts, key);
    OneSidedAt(branch, Fill(OneSided(branch, amounts), branch.fields), key);
    assert FilledValue(At(amounts, key), FieldAt(branch.fields, key)) == At(amounts, key);
    hide Fill, OneSided, Full, TakesOneSide, DistinctFields, At, FilledValue, CopiesAmount, Value, IsField;
  }

  // The selected amount after two rounds, as a function of the amounts s and o on the two sides and their fields.
  lemma TwoRounds(a: Option<string>, av: string, s: Option<string>, sf: Option<Field>, o: Option<string>, of: Option<Field>)
    requires FilledValue(s, sf) == s && FilledValue(o, of) == o
    requires !Blank(a) ==> Trim(av) != ""
    ensures var once := if Copies(a, s, o) then Some(av) else s;
      var s', o' := FilledValue(once, sf), FilledValue(None, of);
      (if Copies(a, s', o') then Some(av) else s') == once <==> !(!Blank(a) && Blank(s) && !Blank(o) && Blank(o'))
  {
    hide Trim, DefaultOf, Fixed;
  }

  lemma SelectedAgrees(branch: Branch, amounts: Parameters)
    requires TakesOneSide(branch) && DistinctFields(branch.fields) && Full(branch.fields, amounts)
    ensures var first := OneSided(branch, amounts); var key := SelectedAmount(amounts);
      At(OneSided(branch, Fill(first, branch.fields)), key) == At(first, key) <==> !StaleOpposite(branch, amounts)
  {
    var selected, opposite := SelectedAmount(amounts), OppositeAmount(amounts);
    var sf, of := FieldAt(branch.fields, selected), FieldAt(branch.fields, opposite);
    var first := OneSided(branch, amounts);
    var again := Fill(first, branch.fields);
    var av := Value(amounts, AMOUNT);
    KeysDiffer();
    SameSide(branch, amounts);
    SecondRound(branch, amounts, selected);
    SecondRound(branch, amounts, opposite);
    OneSidedAt(branch, amounts, selected);
    OneSidedAt(branch, again, selected);
    CopiesOf(amounts);
    CopiesOf(again);
    ValueAt(again, amounts, AMOUNT);
    BlankValue(amounts, AMOUNT);
    BlankValue(amounts, selected);
    BlankValue(amounts, opposite);
    assert FilledValue(At(amounts, selected), sf) == At(amounts, selected);
    assert FilledValue(At(amounts, opposite), of) == At(amounts, opposite);
    TwoRounds(At(amounts, AMOUNT), av, At(amounts, selected), sf, At(amounts, opposite), of);
    hide Fill, OneSided, Full, TakesOneSide, DistinctFields, At, FilledValue, CopiesAmount, Value, IsField, Copies, Blank;
  }

  lemma FillingTwice(branch: Branch, amounts: Parameters)
    requires TakesOneSide(branch) && DistinctFields(branch.fields) && Full(branch.fields, amounts)
    ensures var first := OneSided(branch, amounts);
      OneSided(branch, Fill(first, branch.fields)) == first <==> !StaleOpposite(branch, amounts)
  {
    hide Full, TakesOneSide, DistinctFields, StaleOpposite, OneSided, Fill, At, SelectedAmount;
    var first := OneSided(branch, amounts);
    var second := OneSided(branch, Fill(first, branch.fields));
    SelectedAgrees(branch, amounts);
    if !StaleOpposite(branch, amounts) {
      forall key ensures At(second, key) == At(first, key) {
        if key != SelectedAmount(amounts) {
          OthersAgree(branch, amounts, key);
        }
      }
      SameParameters(second, first);
    }
  }

  lemma FilledTwice(sub: SubActions, parameters: Parameters)
    requires WellFormed(sub) && sub.branches != []
    ensures var branch := SelectedBranch(sub, parameters).value;
      WithDefaults(sub, WithDefaults(sub, parameters)) == WithDefaults(sub, parameters) <==>
      !StaleOpposite(branch, Filled(sub, branch, parameters))
  {
    var branch := SelectedBranch(sub, parameters).value;
    var next := WithDefaults(sub, parameters);
    var amounts := Filled(sub, branch, parameters);
    assert DistinctFields(branch.fields);
    NamedOnce(sub, parameters);
    hide WellFormed, Named, SelectedBranch, DistinctFields, Full;
    FillIsFull(Named(sub, branch, parameters), branch.fields);
    if TakesOneSide(branch) {
      hide OneSided, StaleOpposite, Fill;
      FillingTwice(branch, amounts);
    } else {
      FullIsFixed(branch.fields, amounts);
    }
  }

  // What the caller gives for a parameter once the branch is named and the fields have their defaults.
  function Given(sub: SubActions, branch: Branch, parameters: Parameters, key: string): Option<string> {
    FilledValue(
      if key == sub.fieldId + "Label" then Some(branch.caption)
      else if key == sub.fieldId && Value(parameters, key) == "" then Some(branch.id)
      else At(parameters, key),
      FieldAt(branch.fields, key))
  }

  lemma FilledGives(sub: SubActions, branch: Branch, parameters: Parameters, key: string)
    requires DistinctFields(branch.fields)
    ensures At(Filled(sub, branch, parameters), key) == Given(sub, branch, parameters, key)
  {
    LabelKeyDiffers(sub);
    FillAt(Named(sub, branch, parameters), branch.fields, key);
    hide Fill, FilledValue, Value, DistinctFields, FieldAt;
  }

  /** For a field of the branch that is its default where it is blank, and always where the field leaves no choice; the
      only option of such a field stands in for a missing default. */
  lemma GivenForField(sub: SubActions, branch: Branch, parameters: Parameters, field: Field)
    requires DistinctFields(branch.fields) && field in branch.fields && field.id !in {sub.fieldId, sub.fieldId + "Label"}
    ensures var value, single := At(parameters, field.id), field.select && |field.options| == 1;
      Given(sub, branch, parameters, field.id) ==
        if field.defaultValue.Some? && (single || Blank(value)) then field.defaultValue
        else if field.defaultValue.None? && single then Some(field.options[0])
        else value
  {
    hide Blank, Value;
    assert FieldAt(branch.fields, field.id) == Some(field);
  }

  predicate GivesSideB(sub: SubActions, branch: Branch, parameters: Parameters) {
    Given(sub, branch, parameters, AMOUNT_SIDE) == Some("tokenB")
  }

  // `amount` is given, the selected side is not, the other side is, and the other side's field has no default.
  predicate GivesWrongSide(sub: SubActions, branch: Branch, parameters: Parameters) {
    var sideB := GivesSideB(sub, branch, parameters);
    var selected, opposite := if sideB then TOKEN_B else TOKEN_A, if sideB then TOKEN_A else TOKEN_B;
    && TakesOneSide(branch) && !Blank(Given(sub, branch, parameters, AMOUNT))
    && Blank(Given(sub, branch, parameters, selected)) && !Blank(Given(sub, branch, parameters, opposite))
    && Blank(FilledValue(None, FieldAt(branch.fields, opposite)))
  }

  lemma GivenIsStale(sub: SubActions, branch: Branch, parameters: Parameters)
    requires DistinctFields(branch.fields)
    ensures StaleOpposite(branch, Filled(sub, branch, parameters)) <==> GivesWrongSide(sub, branch, parameters)
    ensures OnSideB(Filled(sub, branch, parameters)) == GivesSideB(sub, branch, parameters)
  {
    var amounts := Filled(sub, branch, parameters);
    FilledGives(sub, branch, parameters, AMOUNT);
    FilledGives(sub, branch, parameters, AMOUNT_SIDE);
    FilledGives(sub, branch, parameters, TOKEN_A);
    FilledGives(sub, branch, parameters, TOKEN_B);
    BlankValue(amounts, AMOUNT);
    BlankValue(amounts, TOKEN_A);
    BlankValue(amounts, TOKEN_B);
    hide Filled, Given, Value, Blank, FilledValue, FieldAt, TakesOneSide, DistinctFields;
  }

  /** Filling the defaults is idempotent, unless the caller gives `amount` and an amount on the side that is not
      selected but none on the one that is. Then the first filling only drops the amount of the wrong side, and a
      second one copies `amount`. */
  lemma FillingIsIdempotentIff(sub: SubActions, parameters: Parameters)
    requires WellFormed(sub) && sub.branches != []
    ensures WithDefaults(sub, WithDefaults(sub, parameters)) == WithDefaults(sub, parameters) <==>
      !GivesWrongSide(sub, SelectedBranch(sub, parameters).value, parameters)
  {
    var branch := SelectedBranch(sub, parameters).value;
    assert DistinctFields(branch.fields);
    FilledTwice(sub, parameters);
    hide WellFormed, SelectedBranch, WithDefaults, StaleOpposite, GivesWrongSide;
    GivenIsStale(sub, branch, parameters);
  }

  // The selected side's amount is what is given for it, or `amount` where neither side's is given.
  function GivenAmount(sub: SubActions, branch: Branch, parameters: Parameters, selected: string): Option<string> {
    var amount := Given(sub, branch, parameters, AMOUNT);
    if !Blank(amount) && Blank(Given(sub, branch, parameters, TOKEN_A)) && Blank(Given(sub, branch, parameters, TOKEN_B))
    then Some(Trim(amount.value)) else Given(sub, branch, parameters, selected)
  }

  /** After filling, no amount and no maximum is left on the side that the caller, or the default, does not select. The
      other side has its amount, or `amount`, and its maximum if the branch has a field for one; nothing else changes. */
  lemma OppositeSideIsEmpty(sub: SubActions, parameters: Parameters, key: string)
    requires WellFormed(sub) && sub.branches != [] && TakesOneSide(SelectedBranch(sub, parameters).value)
    ensures var next, branch := WithDefaults(sub, parameters), SelectedBranch(sub, parameters).value;
      At(next, key) ==
        if GivesSideB(sub, branch, parameters) then
          if key == "tokenAAmount" || key == "maxTokenBAmount" then None
          else if key == "tokenBAmount" then GivenAmount(sub, branch, parameters, "tokenBAmount")
          else if key == "maxTokenAAmount" && !IsField(branch.fields, key) then None
          else Given(sub, branch, parameters, key)
        else
          if key == "tokenBAmount" || key == "maxTokenAAmount" then None
          else if key == "tokenAAmount" then GivenAmount(sub, branch, parameters, "tokenAAmount")
          else if key == "maxTokenBAmount" && !IsField(branch.fields, key) then None
          else Given(sub, branch, parameters, key)
  {
    var branch := SelectedBranch(sub, parameters).value;
    assert DistinctFields(branch.fields);
    hide WellFormed, SelectedBranch, OneSided, Filled, TakesOneSide, GivesSideB, Given, IsField, DistinctFields, Value, Blank;
    var amounts := Filled(sub, branch, parameters);
    GivenIsStale(sub, branch, parameters);
    KeysDiffer();
    OneSidedAt(branch, amounts, key);
    FilledGives(sub, branch, parameters, key);
    FilledGives(sub, branch, parameters, AMOUNT);
    FilledGives(sub, branch, parameters, TOKEN_A);
    FilledGives(sub, branch, parameters, TOKEN_B);
    BlankValue(amounts, AMOUNT);
    BlankValue(amounts, TOKEN_A);
    BlankValue(amounts, TOKEN_B);
    ValueIsTrimmed(amounts, AMOUNT);
  }

  lemma ValueIsTrimmed(parameters: Parameters, key: string)
    ensures !Blank(At(parameters, key)) ==> Value(parameters, key) == Trim(At(parameters, key).value)
  {
  }

  lemma FullIsFixed(fields: seq<Field>, parameters: Parameters)
    requires DistinctFields(fields) && Full(fields, parameters)
    ensures Fill(parameters, fields) == parameters
  {
    forall key ensures At(Fill(parameters, fields), key) == At(parameters, key) {
      FillAt(parameters, fields, key);
    }
    hide Fill, At, DistinctFields;
    SameParameters(Fill(parameters, fields), parameters);
  }

  /** Afterwards the parameter names a branch, so the flattened form shows the right one, if and only if it
      was blank or named one before: an unknown name stays. */
  lemma DefaultsNameTheBranchIff(sub: SubActions, parameters: Parameters)
    requires WellFormed(sub) && sub.branches != []
    ensures NamesABranch(sub, WithDefaults(sub, parameters)) <==>
      Value(parameters, sub.fieldId) == "" || NamesABranch(sub, parameters)
  {
    var branch := SelectedBranch(sub, parameters).value;
    assert branch.id != "" && Trim(branch.id) == branch.id;
    hide WellFormed, OneSided, Fill, Trim, Value, Named, At, SelectedBranch;
    var named := Named(sub, branch, parameters);
    ValueNamed(sub, branch, parameters);
    FillingKeeps(sub, branch, named, sub.fieldId);
    ValueAt(WithDefaults(sub, parameters), named, sub.fieldId);
  }

  function PlainField(id: string): Field {
    Field(id, false, [], None, map[])
  }

  function LiquidityForm(): SubActions {
    SubActions("subAction", None, [Branch("add", "Add", LiquidityFields())])
  }

  function LiquidityFields(): seq<Field> {
    [PlainField(AMOUNT_SIDE), PlainField(TOKEN_A), PlainField(TOKEN_B)]
  }

  lemma LiquidityFormIsWellFormed()
    ensures WellFormed(LiquidityForm())
  {
    KeysDiffer();
    TrimFixed("add");
    var sub := LiquidityForm();
    assert |sub.fieldId| == 9 && |sub.fieldId + "Label"| == 14;
  }

  function WrongSide(): Parameters {
    map[AMOUNT := "5", TOKEN_B := "7"]
  }

  lemma WrongSideAmounts()
    ensures Value(WrongSide(), AMOUNT) != "" && Value(WrongSide(), TOKEN_B) != ""
    ensures TOKEN_A !in WrongSide() && AMOUNT_SIDE !in WrongSide()
  {
    hide Trim;
    KeysDiffer();
    DigitsAreNotBlank();
    MapOfTwo(AMOUNT, "5", TOKEN_B, "7");
  }

  lemma DigitsAreNotBlank()
    ensures Trim("5") == "5" && Trim("7") == "7"
  {
    TrimFixed("5");
    TrimFixed("7");
  }

  lemma MapOfTwo(k: string, v: string, k': string, v': string)
    requires k != k'
    ensures map[k := v, k' := v'][k] == v && map[k := v, k' := v'][k'] == v'
  {
  }

  lemma OnlyBranch(sub: SubActions, parameters: Parameters, branch: Branch)
    requires sub.branches == [branch]
    ensures SelectedBranch(sub, parameters) == Some(branch)
  {
    hide Value;
  }

  lemma NamedLeaves(sub: SubActions, branch: Branch, parameters: Parameters, key: string)
    requires key != sub.fieldId && key != sub.fieldId + "Label"
    ensures At(Named(sub, branch, parameters), key) == At(parameters, key)
    ensures Value(Named(sub, branch, parameters), key) == Value(parameters, key)
  {
    hide Trim;
  }

  lemma SubActionKeysDiffer(fieldId: string)
    requires fieldId == "subAction"
    ensures {fieldId, fieldId + "Label"} !! {AMOUNT, AMOUNT_SIDE, TOKEN_A, TOKEN_B}
  {
    assert |fieldId| == 9 && |fieldId + "Label"| == 14;
    assert |AMOUNT| == 6 && |AMOUNT_SIDE| == 10 && |TOKEN_A| == 12 && |TOKEN_B| == 12;
  }

  lemma WrongSideIsStale(sub: SubActions, branch: Branch)
    requires branch == LiquidityForm().branches[0] && sub.fieldId == "subAction"
    ensures StaleOpposite(branch, Filled(sub, branch, WrongSide()))
  {
    assert branch == Branch("add", "Add", LiquidityFields());
    SubActionKeysDiffer(sub.fieldId);
    WrongSideAmounts();
    hide LiquidityForm, WrongSide, Named, At, Value, StaleOpposite, Fill, LiquidityFields;
    var named := Named(sub, branch, WrongSide());
    NamedLeaves(sub, branch, WrongSide(), AMOUNT);
    NamedLeaves(sub, branch, WrongSide(), AMOUNT_SIDE);
    NamedLeaves(sub, branch, WrongSide(), TOKEN_A);
    NamedLeaves(sub, branch, WrongSide(), TOKEN_B);
    SideIsOpen(WrongSide(), named);
    LiquidityHasNoDefaults();
    NothingToFill(named, branch.fields);
    StaleLiquidity(branch, named);
  }

  lemma SideIsOpen(p: Parameters, q: Parameters)
    requires AMOUNT_SIDE !in p && At(q, AMOUNT_SIDE) == At(p, AMOUNT_SIDE)
    ensures AMOUNT_SIDE !in q
  {
  }

  /** So it happens: an amount on side B while side A is selected needs two rounds. */
  lemma WrongSideTakesTwoRounds()
    ensures WellFormed(LiquidityForm())
    ensures var once := WithDefaults(LiquidityForm(), WrongSide()); WithDefaults(LiquidityForm(), once) != once
  {
    LiquidityFormIsWellFormed();
    LiquidityBranch();
    hide WellFormed, WithDefaults, Filled, StaleOpposite, SelectedBranch, LiquidityForm, WrongSide;
    var sub := LiquidityForm();
    OnlyBranch(sub, WrongSide(), sub.branches[0]);
    WrongSideIsStale(sub, sub.branches[0]);
    FilledTwice(sub, WrongSide());
  }

  lemma LiquidityBranch()
    ensures var sub := LiquidityForm(); sub.fieldId == "subAction" && sub.branches != [] && sub.branches == [sub.branches[0]]
  {
  }

  lemma {:induction false} NothingToFill(parameters: Parameters, fields: seq<Field>)
    requires forall f | f in fields :: DefaultOf(f).None?
    ensures Fill(parameters, fields) == parameters
    decreases |fields|
  {
    if fields != [] {
      NothingToFill(parameters, fields[1..]);
    }
  }

  lemma LiquidityHasNoDefaults()
    ensures forall f | f in LiquidityFields() :: DefaultOf(f).None?
  {
  }

  lemma StaleLiquidity(branch: Branch, amounts: Parameters)
    requires branch.fields == LiquidityFields() && AMOUNT_SIDE !in amounts
    requires Value(amounts, AMOUNT) != "" && Value(amounts, TOKEN_A) == "" && Value(amounts, TOKEN_B) != ""
    ensures StaleOpposite(branch, amounts)
  {
    hide Value;
    var fields := branch.fields;
    assert fields[0].id == AMOUNT_SIDE && fields[1].id == TOKEN_A && fields[2].id == TOKEN_B;
    assert fields[0] in fields && fields[1] in fields && fields[2] in fields;
    LiquidityHasNoDefaults();
    hide LiquidityFields, DefaultOf;
    assert FieldAt(fields, TOKEN_B).value in fields;
  }
}
