/** Options of connector forms: the join of a wallet's borrow positions with the vault catalog, the union of pools, and
    the order of vaults (jupiterLendBorrowVaultProvider, raydiumPoolProvider and sortDriftVaultOptions in
    apps/browser-demo/src/connectorOptionProviders.ts). */
module ConnectorOptions {
  import opened FirstOccurrences
  import opened Sequences
  import opened StableSort
  import opened Wrappers

  // ---- Joins ---------------------------------------------------------------------------------------------

  datatype Choice = Choice(value: string, caption: string, detail: string, position: bool)

  // A vault of the catalog; entries without an id are None.
  datatype Vault = Vault(id: string, caption: string, detail: string)

  function IdOf(vault: Vault): string {
    vault.id
  }

  function Itself(id: string): string {
    id
  }

  function ValueKey(choice: Choice): string {
    choice.value
  }

  function Present<T>(xs: seq<Option<T>>): seq<T> {
    if xs == [] then [] else (if xs[0].Some? then [xs[0].value] else []) + Present(xs[1..])
  }

  function NonEmpty(id: string): bool {
    id != ""
  }

  function Catalog(vaults: seq<Option<Vault>>): seq<Vault> {
    Added(IdOf, [], Present(vaults))
  }

  function HeldIds(positions: seq<Option<string>>): seq<string> {
    Added(Itself, [], Filter(NonEmpty, Present(positions)))
  }

  function VaultAt(catalog: seq<Vault>, id: string): (k: nat)
    ensures k <= |catalog|
    ensures k < |catalog| ==> catalog[k].id == id
    ensures forall i | 0 <= i < k :: catalog[i].id != id
  {
    if catalog == [] || catalog[0].id == id then 0 else 1 + VaultAt(catalog[1..], id)
  }

  function PositionChoice(catalog: seq<Vault>): string -> Choice {
    (id: string) =>
      var k := VaultAt(catalog, id);
      Choice(id, if k < |catalog| then catalog[k].caption else "Vault #" + id, "You have an open position in this vault", true)
  }

  function CatalogChoice(vault: Vault): Choice {
    Choice(vault.id, vault.caption, vault.detail, false)
  }

  function NotIn(ids: seq<string>): Vault -> bool {
    (vault: Vault) => vault.id !in ids
  }

  function BorrowVaults(positions: seq<Option<string>>, vaults: seq<Option<Vault>>): seq<Choice> {
    Map(PositionChoice(Catalog(vaults)), HeldIds(positions))
    + Map(CatalogChoice, Filter(NotIn(HeldIds(positions)), Catalog(vaults)))
  }

  lemma {:induction false} MapKeepsKeys<T>(f: T -> Choice, key: T -> string, xs: seq<T>)
    requires DistinctKeys(key, xs) && forall x | x in xs :: f(x).value == key(x)
    ensures DistinctKeys(ValueKey, Map(f, xs)) && Keys(ValueKey, Map(f, xs)) == Keys(key, xs)
  {
    var ys := Map(f, xs);
    forall i | 0 <= i < |xs| ensures ys[i].value == key(xs[i]) {
    }
    forall v ensures v in Keys(ValueKey, ys) <==> v in Keys(key, xs) {
      KeyIn(ValueKey, ys, v);
      KeyIn(key, xs, v);
    }
  }

  lemma {:induction false} FilterKeepsDistinct<T(!new)>(key: T -> string, p: T -> bool, xs: seq<T>)
    requires DistinctKeys(key, xs)
    ensures DistinctKeys(key, Filter(p, xs))
  {
    if xs != [] {
      FilterKeepsDistinct(key, p, xs[1..]);
      FilterMembers(p, xs[1..]);
      var rest := Filter(p, xs[1..]);
      forall j | 0 <= j < |rest| ensures key(rest[j]) != key(xs[0]) {
        assert rest[j] in Filter(p, xs[1..]);
        assert rest[j] in xs[1..];
        var i :| 0 <= i < |xs[1..]| && xs[1..][i] == rest[j];
        assert xs[i + 1] == rest[j];
      }
    }
  }

  lemma {:induction false} DistinctConcat(xs: seq<Choice>, ys: seq<Choice>)
    requires DistinctKeys(ValueKey, xs) && DistinctKeys(ValueKey, ys) && Keys(ValueKey, xs) !! Keys(ValueKey, ys)
    ensures DistinctKeys(ValueKey, xs + ys) && Keys(ValueKey, xs + ys) == Keys(ValueKey, xs) + Keys(ValueKey, ys)
  {
    var all := xs + ys;
    forall i, j | 0 <= i < j < |all| ensures ValueKey(all[i]) != ValueKey(all[j]) {
      if i < |xs| <= j {
        KeyIn(ValueKey, xs, ValueKey(xs[i]));
        KeyIn(ValueKey, ys, ValueKey(ys[j - |xs|]));
      }
    }
    assert forall c :: c in all <==> c in xs || c in ys;
  }

  /** The options list every vault with a position or in the catalog exactly once, those with a position first. */
  lemma EachVaultOnce(positions: seq<Option<string>>, vaults: seq<Option<Vault>>)
    ensures var options := BorrowVaults(positions, vaults);
      var ids := Keys(Itself, Filter(NonEmpty, Present(positions)));
      && DistinctKeys(ValueKey, options)
      && Keys(ValueKey, options) == ids + Keys(IdOf, Present(vaults))
      && (forall i | 0 <= i < |options| :: options[i].position <==> i < |HeldIds(positions)|)
      && (forall i | 0 <= i < |options| :: options[i].position <==> options[i].value in ids)
      && forall i, vault | 0 <= i < |options| && vault in Catalog(vaults) && vault.id == options[i].value ::
           options[i].caption == vault.caption
  {
    AddedKeys(Itself, [], Filter(NonEmpty, Present(positions)));
    AddedKeys(IdOf, [], Present(vaults));
    assert Keys(Itself, HeldIds(positions)) == Keys(Itself, Filter(NonEmpty, Present(positions)));
    assert Keys(IdOf, Catalog(vaults)) == Keys(IdOf, Present(vaults));
    hide HeldIds, Catalog, Keys, Filter, Present, DistinctKeys;
    JoinIsDistinct(HeldIds(positions), Catalog(vaults));
    JoinTakesCaptions(HeldIds(positions), Catalog(vaults));
  }

  // The vaults without a position.
  function Others(held: seq<string>, catalog: seq<Vault>): seq<Vault> {
    if catalog == [] then []
    else (if catalog[0].id in held then [] else [catalog[0]]) + Others(held, catalog[1..])
  }

  lemma {:induction false} RestAreOthers(held: seq<string>, catalog: seq<Vault>)
    ensures Filter(NotIn(held), catalog) == Others(held, catalog)
  {
    if catalog != [] {
      RestAreOthers(held, catalog[1..]);
    }
  }

  // A vault with a position: with the caption of the catalog, if it is there.
  predicate IsPositionOption(option: Choice, id: string, catalog: seq<Vault>) {
    && option.value == id && option.position && option.detail == "You have an open position in this vault"
    && (forall vault | vault in catalog && vault.id == id :: option.caption == vault.caption)
    && ((forall vault | vault in catalog :: vault.id != id) ==> option.caption == "Vault #" + id)
  }

  // First the vaults with a position, then the others.
  predicate AreJoined(options: seq<Choice>, held: seq<string>, catalog: seq<Vault>) {
    var others := Others(held, catalog);
    && |options| == |held| + |others|
    && (forall i | 0 <= i < |held| :: IsPositionOption(options[i], held[i], catalog))
    && forall j | 0 <= j < |others| ::
         options[|held| + j] == Choice(others[j].id, others[j].caption, others[j].detail, false)
  }

  /** The list is the first occurrence of each vault with a position, in order, and then the first entry of each other
      vault of the catalog, in order, each with what the catalog says of it. */
  lemma OptionsAreTheJoin(positions: seq<Option<string>>, vaults: seq<Option<Vault>>)
    returns (held: seq<string>, heldAt: seq<nat>, catalog: seq<Vault>, catalogAt: seq<nat>)
    ensures PicksFirsts(Itself, Filter(NonEmpty, Present(positions)), heldAt, held)
    ensures PicksFirsts(IdOf, Present(vaults), catalogAt, catalog)
    ensures AreJoined(BorrowVaults(positions, vaults), held, catalog)
  {
    hide *;
    held, catalog := HeldIds(positions), Catalog(vaults);
    JoinsThese(positions, vaults);
    heldAt := AddedAreTheFirsts(Itself, Filter(NonEmpty, Present(positions)));
    catalogAt := AddedAreTheFirsts(IdOf, Present(vaults));
    CatalogIsDistinct(vaults);
    JoinedOptions(held, catalog);
  }

  lemma JoinsThese(positions: seq<Option<string>>, vaults: seq<Option<Vault>>)
    ensures HeldIds(positions) == Added(Itself, [], Filter(NonEmpty, Present(positions)))
    ensures Catalog(vaults) == Added(IdOf, [], Present(vaults))
    ensures var held, catalog := HeldIds(positions), Catalog(vaults);
      BorrowVaults(positions, vaults) == Map(PositionChoice(catalog), held) + Map(CatalogChoice, Filter(NotIn(held), catalog))
  {
    hide Added, Filter, Present, Map;
  }

  lemma CatalogIsDistinct(vaults: seq<Option<Vault>>)
    ensures DistinctKeys(IdOf, Catalog(vaults))
  {
    AddedKeys(IdOf, [], Present(vaults));
    hide Added, Present;
  }

  lemma JoinedOptions(held: seq<string>, catalog: seq<Vault>)
    requires DistinctKeys(IdOf, catalog)
    ensures AreJoined(Map(PositionChoice(catalog), held) + Map(CatalogChoice, Filter(NotIn(held), catalog)), held, catalog)
  {
    CaptionsAgree(held, catalog);
    RestAreOthers(held, catalog);
    hide Filter, Others, NotIn, DistinctKeys;
    forall i | 0 <= i < |held| ensures IsPositionOption(PositionChoice(catalog)(held[i]), held[i], catalog) {
      PositionOptionIs(catalog, held[i]);
    }
    hide IsPositionOption, PositionChoice;
  }

  lemma PositionOptionIs(catalog: seq<Vault>, id: string)
    requires forall vault | vault in catalog && vault.id == id :: PositionChoice(catalog)(id).caption == vault.caption
    ensures IsPositionOption(PositionChoice(catalog)(id), id, catalog)
  {
    var k := VaultAt(catalog, id);
    assert k < |catalog| ==> catalog[k] in catalog;
  }

  lemma JoinTakesCaptions(held: seq<string>, catalog: seq<Vault>)
    requires DistinctKeys(IdOf, catalog)
    ensures var options := Map(PositionChoice(catalog), held) + Map(CatalogChoice, Filter(NotIn(held), catalog));
      forall i, vault | 0 <= i < |options| && vault in catalog && vault.id == options[i].value ::
        options[i].caption == vault.caption
  {
    CaptionsAgree(held, catalog);
    hide Filter, NotIn, DistinctKeys;
    var rest := Filter(NotIn(held), catalog);
    var options := Map(PositionChoice(catalog), held) + Map(CatalogChoice, rest);
    forall i, vault | 0 <= i < |options| && vault in catalog && vault.id == options[i].value
      ensures options[i].caption == vault.caption
    {
      if i < |held| {
        assert options[i] == PositionChoice(catalog)(held[i]);
      } else {
        assert options[i] == CatalogChoice(rest[i - |held|]) && rest[i - |held|] in rest;
      }
    }
  }

  lemma JoinIsDistinct(held: seq<string>, catalog: seq<Vault>)
    requires DistinctKeys(Itself, held) && DistinctKeys(IdOf, catalog)
    ensures var options := Map(PositionChoice(catalog), held) + Map(CatalogChoice, Filter(NotIn(held), catalog));
      && DistinctKeys(ValueKey, options)
      && Keys(ValueKey, options) == Keys(Itself, held) + Keys(IdOf, catalog)
      && (forall i | 0 <= i < |options| :: options[i].position <==> i < |held|)
      && (forall i | 0 <= i < |options| :: options[i].position <==> options[i].value in Keys(Itself, held))
  {
    var rest := Filter(NotIn(held), catalog);
    MapKeepsKeys(PositionChoice(catalog), Itself, held);
    FilterKeepsDistinct(IdOf, NotIn(held), catalog);
    MapKeepsKeys(CatalogChoice, IdOf, rest);
    RestKeys(held, catalog);
    hide Filter, Keys, DistinctKeys, NotIn;
    DistinctConcat(Map(PositionChoice(catalog), held), Map(CatalogChoice, rest));
    forall i | 0 <= i < |held| ensures held[i] in Keys(Itself, held) {
      KeyIn(Itself, held, held[i]);
    }
    forall i | 0 <= i < |rest| ensures rest[i].id !in Keys(Itself, held) {
      KeyIn(IdOf, rest, rest[i].id);
    }
  }

  // A position's option takes the caption of its vault.
  lemma CaptionsAgree(held: seq<string>, catalog: seq<Vault>)
    requires DistinctKeys(IdOf, catalog)
    ensures forall id, vault | vault in catalog && vault.id == id :: PositionChoice(catalog)(id).caption == vault.caption
    ensures forall x, vault | x in Filter(NotIn(held), catalog) && vault in catalog && vault.id == x.id :: x == vault
  {
    FilterMembers(NotIn(held), catalog);
    hide Filter;
    forall x, y | x in catalog && y in catalog && x.id == y.id ensures x == y {
      var i :| 0 <= i < |catalog| && catalog[i] == x;
      var j :| 0 <= j < |catalog| && catalog[j] == y;
      assert IdOf(catalog[i]) == IdOf(catalog[j]);
    }
    forall id, vault | vault in catalog && vault.id == id ensures PositionChoice(catalog)(id).caption == vault.caption {
      var j :| 0 <= j < |catalog| && catalog[j] == vault;
      var k := VaultAt(catalog, id);
      assert catalog[k] in catalog;
    }
  }

  lemma RestKeys(held: seq<string>, catalog: seq<Vault>)
    ensures Keys(IdOf, Filter(NotIn(held), catalog)) == Keys(IdOf, catalog) - Keys(Itself, held)
  {
    FilterMembers(NotIn(held), catalog);
    forall id ensures id in held <==> id in Keys(Itself, held) {
      KeyIn(Itself, held, id);
    }
  }

  // ---- The loops ------------------------------------------------------------------------------------------

  function Maybe<T>(x: Option<T>): seq<T> {
    if x.Some? then [x.value] else []
  }

  lemma PresentFirst<T>(xs: seq<Option<T>>)
    requires xs != []
    ensures Present(xs) == Maybe(xs[0]) + Present(xs[1..])
  {
  }

  lemma {:induction false} PresentConcat<T>(xs: seq<Option<T>>, ys: seq<Option<T>>)
    ensures Present(xs + ys) == Present(xs) + Present(ys)
  {
    if xs == [] {
      NoneThen(ys);
      NoneThen(Present(ys));
    } else {
      PresentFirst(xs);
      PresentFirst(xs + ys);
      hide Present;
      FirstOfConcat(xs, ys);
      PresentConcat(xs[1..], ys);
      Assoc(Maybe(xs[0]), Present(xs[1..]), Present(ys));
    }
  }

  lemma PresentOneMore<T>(xs: seq<Option<T>>, i: nat)
    requires i < |xs|
    ensures Present(xs[..i + 1]) == Present(xs[..i]) + Maybe(xs[i])
  {
    Next(xs, i);
    PresentConcat(xs[..i], [xs[i]]);
    PresentFirst([xs[i]]);
    One(xs[i]);
    NoneThen(Maybe(xs[i]));
  }

  lemma CatalogStep(vaults: seq<Option<Vault>>, i: nat)
    requires i < |vaults|
    ensures var catalog := Catalog(vaults[..i]);
      Catalog(vaults[..i + 1])
      == if vaults[i].Some? && VaultAt(catalog, vaults[i].value.id) == |catalog| then catalog + [vaults[i].value] else catalog
  {
    hide Added, Present;
    PresentOneMore(vaults, i);
    var catalog := Catalog(vaults[..i]);
    if vaults[i].Some? {
      var vault := vaults[i].value;
      AddedOneMore(IdOf, [], Present(vaults[..i]), vault);
      KeyIn(IdOf, catalog, vault.id);
      var k := VaultAt(catalog, vault.id);
      assert k < |catalog| ==> IdOf(catalog[k]) == vault.id;
    } else {
      assert Present(vaults[..i]) + [] == Present(vaults[..i]);
    }
  }

  method BuildCatalog(vaults: seq<Option<Vault>>) returns (catalog: seq<Vault>)
    ensures catalog == Catalog(vaults)
  {
    catalog := [];
    for i := 0 to |vaults|
      invariant catalog == Catalog(vaults[..i])
    {
      CatalogStep(vaults, i);
      hide Catalog;
      if vaults[i].Some? && VaultAt(catalog, vaults[i].value.id) == |catalog| {
        catalog := catalog + [vaults[i].value];
      }
    }
    assert vaults[..|vaults|] == vaults;
  }

  lemma HeldStep(positions: seq<Option<string>>, i: nat)
    requires i < |positions|
    ensures var held, id := HeldIds(positions[..i]), positions[i].GetOr("");
      HeldIds(positions[..i + 1]) == if id == "" || id in Keys(Itself, held) then held else held + [id]
  {
    hide Added, Present, Filter;
    PresentOneMore(positions, i);
    var before, id := Present(positions[..i]), positions[i].GetOr("");
    if positions[i].Some? {
      FilterConcat(NonEmpty, before, [id]);
      FilterOne(NonEmpty, id);
      if id == "" {
        assert Filter(NonEmpty, before) + [] == Filter(NonEmpty, before);
      } else {
        AddedOneMore(Itself, [], Filter(NonEmpty, before), id);
      }
    } else {
      assert before + [] == before;
    }
  }

  method BuildPositions(positions: seq<Option<string>>, catalog: seq<Vault>) returns (seen: set<string>, options: seq<Choice>)
    ensures seen == Keys(Itself, HeldIds(positions)) && options == Map(PositionChoice(catalog), HeldIds(positions))
  {
    seen, options := {}, [];
    Ends(positions);
    for i := 0 to |positions|
      invariant seen == Keys(Itself, HeldIds(positions[..i]))
      invariant options == Map(PositionChoice(catalog), HeldIds(positions[..i]))
    {
      HeldStep(positions, i);
      hide HeldIds, PositionChoice, Keys, Map;
      var id := positions[i].GetOr("");
      if id == "" || id in seen {
        continue;
      }
      KeysOfMore(Itself, HeldIds(positions[..i]), id);
      MapConcat(PositionChoice(catalog), HeldIds(positions[..i]), [id]);
      assert Map(PositionChoice(catalog), [id]) == [PositionChoice(catalog)(id)];
      seen := seen + {id};
      options := options + [PositionChoice(catalog)(id)];
    }
  }

  lemma RestStep(held: seq<string>, catalog: seq<Vault>, i: nat)
    requires i < |catalog|
    ensures var rest := Map(CatalogChoice, Filter(NotIn(held), catalog[..i]));
      Map(CatalogChoice, Filter(NotIn(held), catalog[..i + 1]))
      == if catalog[i].id in Keys(Itself, held) then rest else rest + [CatalogChoice(catalog[i])]
  {
    var vault := catalog[i];
    assert catalog[..i + 1] == catalog[..i] + [vault] && [vault][1..] == [];
    FilterConcat(NotIn(held), catalog[..i], [vault]);
    KeyIn(Itself, held, vault.id);
    assert vault.id in held <==> vault.id in Keys(Itself, held);
    assert Filter(NotIn(held), [vault]) == if vault.id in held then [] else [vault];
  }

  method JupiterLendBorrowVaults(positions: seq<Option<string>>, vaults: seq<Option<Vault>>) returns (options: seq<Choice>)
    ensures options == BorrowVaults(positions, vaults)
  {
    hide HeldIds, Catalog, CatalogChoice, PositionChoice;
    var catalog := BuildCatalog(vaults);
    var seen, held := BuildPositions(positions, catalog);
    var all := [];
    for i := 0 to |catalog|
      invariant all == Map(CatalogChoice, Filter(NotIn(HeldIds(positions)), catalog[..i]))
    {
      RestStep(HeldIds(positions), catalog, i);
      hide Filter, Map;
      if catalog[i].id in seen {
        continue;
      }
      all := all + [CatalogChoice(catalog[i])];
    }
    assert catalog[..|catalog|] == catalog;
    return held + all;
  }

  // raydiumPoolProvider: both kinds of pools, the first option of each.
  method RaydiumPools(cpmm: seq<Choice>, clmm: seq<Choice>) returns (out: seq<Choice>)
    ensures out == Added(ValueKey, [], cpmm + clmm)
    ensures DistinctKeys(ValueKey, out) && Keys(ValueKey, out) == Keys(ValueKey, cpmm + clmm)
  {
    var combined := cpmm + clmm;
    var seen: set<string> := {};
    out := [];
    for i := 0 to |combined|
      invariant out == Added(ValueKey, [], combined[..i]) && seen == Keys(ValueKey, out)
    {
      hide Added;
      AddedOneMore(ValueKey, [], combined[..i], combined[i]);
      assert combined[..i] + [combined[i]] == combined[..i + 1];
      if combined[i].value in seen {
        continue;
      }
      KeysOfMore(ValueKey, out, combined[i]);
      seen := seen + {combined[i].value};
      out := out + [combined[i]];
    }
    assert combined[..|combined|] == combined;
    AddedKeys(ValueKey, [], combined);
  }

  // ---- The order of vaults -----------------------------------------------------------------------------------

  // `locale` is localeCompare(a, b) <= 0, `rank` puts SOL and USDC vaults first.
  function VaultOrder(rank: Choice -> int, locale: (string, string) -> bool): (Choice, Choice) -> bool {
    (l: Choice, r: Choice) => rank(l) < rank(r) || (rank(l) == rank(r) && locale(l.caption, r.caption))
  }

  // The choices of one rank whose label compares equal to this one.
  function Ties(rank: Choice -> int, locale: (string, string) -> bool, level: int, caption: string): Choice -> bool {
    (c: Choice) => rank(c) == level && locale(c.caption, caption) && locale(caption, c.caption)
  }

  predicate ByRankThenLabel(rank: Choice -> int, locale: (string, string) -> bool, options: seq<Choice>) {
    forall i, j | 0 <= i < j < |options| ::
      rank(options[i]) <= rank(options[j])
      && (rank(options[i]) == rank(options[j]) ==> locale(options[i].caption, options[j].caption))
  }

  /** Sorting by rank and label permutes the options, sorts them by rank and label, and keeps the order of those that tie. */
  lemma VaultsAreSorted(rank: Choice -> int, locale: (string, string) -> bool, options: seq<Choice>, caption: string, level: int)
    requires TotalPreorder(locale)
    ensures multiset(Sort(options, VaultOrder(rank, locale))) == multiset(options)
    ensures ByRankThenLabel(rank, locale, Sort(options, VaultOrder(rank, locale)))
    ensures Filter(Ties(rank, locale, level, caption), Sort(options, VaultOrder(rank, locale)))
      == Filter(Ties(rank, locale, level, caption), options)
  {
    var le, tie := VaultOrder(rank, locale), Ties(rank, locale, level, caption);
    forall a, b ensures le(a, b) || le(b, a) {
      assert locale(a.caption, b.caption) || locale(b.caption, a.caption);
    }
    forall a, b, c | le(a, b) && le(b, c) ensures le(a, c) {
      assert locale(a.caption, b.caption) && locale(b.caption, c.caption) ==> locale(a.caption, c.caption);
    }
    forall a, b | tie(a) && tie(b) ensures le(a, b) {
      assert locale(a.caption, caption) && locale(caption, b.caption) ==> locale(a.caption, b.caption);
    }
    SortPermutes(options, le);
    SortSorts(options, le);
    SortIsStable(options, le, tie);
  }
}
