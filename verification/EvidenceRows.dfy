/** The evidence rows of a review and their sections (reviewEvidenceRows with its addRow, and
    reviewEvidenceSections, in apps/browser-demo/src/agentReviewPresentation.ts). Where candidate rows come
    from, lower-casing, tones, section classes and localization are parameters. */
module EvidenceRows {
  import opened FirstOccurrences
  import Sequences
  import opened StableSort
  import Text
  import opened Wrappers

  const MAX_LABEL := 96
  const MAX_VALUE := 720
  const MAX_ROWS := 32

  datatype Tone = Good | Warn | Fail | Neutral

  datatype Row = Row(caption: string, value: string, tone: Tone)

  datatype Candidate = Candidate(caption: string, value: string, tone: Option<Tone>)

  datatype Env = Env(lower: string -> string, entryTone: (string, string) -> Tone)

  function Clip(s: string, max: nat): string {
    if |s| > max then s[..max] else s
  }

  // textValue(...).slice(0, ...)
  function RowOf(env: Env): Candidate -> Row {
    (c: Candidate) =>
      var caption, value := Clip(Text.Trim(c.caption), MAX_LABEL), Clip(Text.Trim(c.value), MAX_VALUE);
      Row(caption, value, if c.tone.Some? then c.tone.value else env.entryTone(caption, value))
  }

  function IsShown(row: Row): bool {
    row.caption != "" && row.value != ""
  }

  function Key(env: Env): Row -> string {
    (row: Row) => env.lower(row.caption) + "\n" + env.lower(row.value)
  }

  function ShownRows(env: Env, cs: seq<Candidate>): seq<Row> {
    Filter(IsShown, Map(RowOf(env), cs))
  }

  function Labels(env: Env, rows: seq<Row>): set<string> {
    set row | row in rows :: env.lower(row.caption)
  }

  // The entries of the evidence record whose label no row has yet.
  function NewLabels(env: Env, labels: set<string>): Candidate -> bool {
    (c: Candidate) => env.lower(c.caption) !in labels
  }

  // `main` are the rows of the review's parts in their order, `extra` its other evidence entries.
  function Rows(env: Env, main: seq<Candidate>, extra: seq<Candidate>, fallback: seq<Candidate>): seq<Row> {
    var first := Added(Key(env), [], ShownRows(env, main));
    var rows := Added(Key(env), first, ShownRows(env, Filter(NewLabels(env, Labels(env, first)), extra)));
    var filled := if rows == [] then Added(Key(env), rows, ShownRows(env, fallback)) else rows;
    Capped(filled)
  }

  function Capped(rows: seq<Row>): seq<Row> {
    if |rows| > MAX_ROWS then rows[..MAX_ROWS] else rows
  }

  // The rows and the set of keys that addRow closes over.
  class RowBuilder {
    var rows: seq<Row>
    var seen: set<string>

    ghost predicate Valid(env: Env)
      reads this
    {
      seen == Keys(Key(env), rows)
    }

    constructor (env: Env)
      ensures Valid(env) && rows == []
    {
      rows, seen := [], {};
    }

    method AddRow(env: Env, c: Candidate)
      requires Valid(env)
      modifies this
      ensures Valid(env)
      ensures rows == Added(Key(env), old(rows), ShownRows(env, [c]))
    {
      OneCandidate(env, rows, c);
      var row := RowOf(env)(c);
      if row.caption == "" || row.value == "" {
        return;
      }
      var key := Key(env)(row);
      if key in seen {
        return;
      }
      KeysOfMore(Key(env), rows, row);
      seen := seen + {key};
      rows := rows + [row];
    }

    method AddAll(env: Env, cs: seq<Candidate>)
      requires Valid(env)
      modifies this
      ensures Valid(env) && rows == Added(Key(env), old(rows), ShownRows(env, cs))
    {
      hide Added;
      NoCandidate(env, rows);
      for i := 0 to |cs|
        invariant Valid(env) && rows == Added(Key(env), old(rows), ShownRows(env, cs[..i]))
      {
        AddRow(env, cs[i]);
        OneMoreCandidate(env, old(rows), cs[..i], cs[i]);
        assert cs[..i] + [cs[i]] == cs[..i + 1];
      }
      assert cs[..|cs|] == cs;
    }
  }

  lemma NoCandidate(env: Env, rows: seq<Row>)
    ensures Added(Key(env), rows, ShownRows(env, [])) == rows
  {
  }

  lemma OneCandidate(env: Env, rows: seq<Row>, c: Candidate)
    ensures var row := RowOf(env)(c);
      Added(Key(env), rows, ShownRows(env, [c]))
      == if IsShown(row) && Key(env)(row) !in Keys(Key(env), rows) then rows + [row] else rows
  {
    hide RowOf, IsShown, Key;
    var row := RowOf(env)(c);
    assert Map(RowOf(env), [c]) == [row];
    assert Filter(IsShown, [row]) == if IsShown(row) then [row] else [] by {
      assert [row][1..] == [];
    }
    assert [row][1..] == [];
  }

  lemma OneMoreCandidate(env: Env, rows: seq<Row>, cs: seq<Candidate>, c: Candidate)
    ensures Added(Key(env), Added(Key(env), rows, ShownRows(env, cs)), ShownRows(env, [c]))
      == Added(Key(env), rows, ShownRows(env, cs + [c]))
  {
    hide Added, RowOf, IsShown, Key;
    assert Map(RowOf(env), cs + [c]) == Map(RowOf(env), cs) + Map(RowOf(env), [c]);
    FilterConcat(IsShown, Map(RowOf(env), cs), Map(RowOf(env), [c]));
    AddedTwice(Key(env), rows, ShownRows(env, cs), ShownRows(env, [c]));
  }

  method ReviewEvidenceRows(env: Env, main: seq<Candidate>, extra: seq<Candidate>, fallback: seq<Candidate>)
    returns (rows: seq<Row>)
    ensures rows == Rows(env, main, extra, fallback)
  {
    hide Added, ShownRows, Filter;
    var builder := new RowBuilder(env);
    builder.AddAll(env, main);
    var seenLabels := Labels(env, builder.rows);
    builder.AddAll(env, Filter(NewLabels(env, seenLabels), extra));
    if builder.rows == [] {
      builder.AddAll(env, fallback);
    }
    return Capped(builder.rows);
  }

  // ---- Deduplication -----------------------------------------------------------------------------------

  /** No two rows say the same up to case, and there are at most 32. */
  lemma RowsAreDistinct(env: Env, main: seq<Candidate>, extra: seq<Candidate>, fallback: seq<Candidate>)
    ensures DistinctKeys(Key(env), Rows(env, main, extra, fallback)) && |Rows(env, main, extra, fallback)| <= 32
  {
    hide Added, ShownRows, Filter, Key;
    var first := Added(Key(env), [], ShownRows(env, main));
    var others := ShownRows(env, Filter(NewLabels(env, Labels(env, first)), extra));
    AddedKeys(Key(env), [], ShownRows(env, main));
    AddedKeys(Key(env), first, others);
    AddedKeys(Key(env), Added(Key(env), first, others), ShownRows(env, fallback));
  }

  // The entries that are labelled unlike all of these rows, up to case.
  function Unlike(env: Env, rows: seq<Row>, extra: seq<Candidate>): seq<Candidate> {
    if extra == [] then []
    else
      (if exists row | row in rows :: env.lower(row.caption) == env.lower(extra[0].caption) then [] else [extra[0]])
      + Unlike(env, rows, extra[1..])
  }

  lemma {:induction false} NewLabelsAreUnlike(env: Env, rows: seq<Row>, extra: seq<Candidate>)
    ensures Filter(NewLabels(env, Labels(env, rows)), extra) == Unlike(env, rows, extra)
  {
    if extra != [] {
      NewLabelsAreUnlike(env, rows, extra[1..]);
    }
  }

  // What is offered in turn: the review's parts, then the entries with new labels; if that is nothing, the fallback.
  function Offered(env: Env, main: seq<Candidate>, extra: seq<Candidate>, fallback: seq<Candidate>): seq<Row> {
    var first := Added(Key(env), [], ShownRows(env, main));
    var offered := ShownRows(env, main) + ShownRows(env, Unlike(env, first, extra));
    if offered != [] then offered else ShownRows(env, fallback)
  }

  /** The rows are the first offered row of each key, in their order, up to the cap: nothing else is lost and
      nothing is repeated. */
  lemma RowsAreTheFirsts(env: Env, main: seq<Candidate>, extra: seq<Candidate>, fallback: seq<Candidate>)
    returns (at: seq<nat>, all: seq<Row>)
    ensures PicksFirsts(Key(env), Offered(env, main, extra, fallback), at, all)
    ensures var rows := Rows(env, main, extra, fallback); rows <= all && |rows| == if |all| < 32 then |all| else 32
  {
    hide Key, ShownRows, PicksFirsts, Added, Unlike;
    var first := Added(Key(env), [], ShownRows(env, main));
    NewLabelsAreUnlike(env, first, extra);
    var more := ShownRows(env, Filter(NewLabels(env, Labels(env, first)), extra));
    AddedTwice(Key(env), [], ShownRows(env, main), more);
    NothingAdded(env, ShownRows(env, main) + more);
    all := Added(Key(env), [], Offered(env, main, extra, fallback));
    at := AddedAreTheFirsts(Key(env), Offered(env, main, extra, fallback));
  }

  lemma NothingAdded(env: Env, rows: seq<Row>)
    ensures Added(Key(env), [], rows) == [] <==> rows == []
  {
    AddedKeys(Key(env), [], rows);
    if rows != [] {
      KeyIn(Key(env), rows, Key(env)(rows[0]));
    }
  }

  // One label goes on after the other with a line feed.
  predicate Continues(a: string, b: string) {
    a + "\n" <= b
  }

  predicate SameKey(a: string, v: string, b: string, w: string) {
    a + "\n" + v == b + "\n" + w
  }

  lemma SameKeyContinues(a: string, v: string, b: string, w: string)
    requires SameKey(a, v, b, w) && |a| <= |b|
    ensures if |a| == |b| then a == b && v == w else Continues(a, b)
  {
    var key := a + "\n" + v;
    assert key[..|a|] == a && key[|a|] == '\n' && key[|a| + 1..] == v;
    assert key[..|b|] == b && key[|b| + 1..] == w;
    if |a| < |b| {
      assert b[..|a| + 1] == key[..|a| + 1] == a + "\n";
    }
  }

  // What the lemma on collisions needs of toLowerCase, in which no line feed and no space comes, goes or moves.
  ghost predicate Lowers(lower: string -> string) {
    && (forall s, t :: lower(s + "\n" + t) == lower(s) + "\n" + lower(t))
    && (forall s :: lower(lower(s)) == lower(s) && |lower(s)| <= 3 * |s|)
    && (forall s | s != "" :: lower(s) != "" && (IsSpace(lower(s)[0]) <==> IsSpace(s[0])))
  }

  predicate IsSpace(c: char) {
    Text.IsSpace(c)
  }

  // What addRow makes of some text: trimmed, then clipped.
  ghost predicate IsCut(s: string, max: nat) {
    exists text :: s == Clip(Text.Trim(text), max)
  }

  // Rows with these labels and values come out of addRow.
  ghost predicate IsMade(r: Row) {
    r.caption != "" && r.value != "" && IsCut(r.caption, 96) && IsCut(r.value, 720)
  }

  lemma RowsAreMade(env: Env, r: Row)
    ensures IsMade(r) <==> IsShown(r) && exists c :: RowOf(env)(c) == r
  {
    if IsMade(r) {
      var caption :| r.caption == Clip(Text.Trim(caption), MAX_LABEL);
      var value :| r.value == Clip(Text.Trim(value), MAX_VALUE);
      var c := Candidate(caption, value, Some(r.tone));
      assert RowOf(env)(c).tone == r.tone;
      assert RowOf(env)(c) == r;
    }
    if c :| RowOf(env)(c) == r {
      assert r.caption == Clip(Text.Trim(c.caption), MAX_LABEL) && r.value == Clip(Text.Trim(c.value), MAX_VALUE);
    }
  }

  /** A row keeps the tone it is offered with, and otherwise gets the one of its label and value as they are shown. */
  lemma RowTone(env: Env, c: Candidate)
    ensures var r := RowOf(env)(c);
      match c.tone case Some(tone) => r.tone == tone case None => r.tone == env.entryTone(r.caption, r.value)
  {
  }

  // One label goes on after the other with a line feed and then something other than space.
  predicate GoesOn(a: string, b: string) {
    Continues(a, b) && |b| > |a| + 1 && !IsSpace(b[|a| + 1])
  }

  ghost predicate LabelsCollide(env: Env, a: string, b: string) {
    exists r, r' :: IsMade(r) && IsMade(r') && r.caption == a && r'.caption == b && Key(env)(r) == Key(env)(r')
  }

  lemma CutStartsWithoutSpace(s: string, max: nat)
    requires s != "" && IsCut(s, max)
    ensures !IsSpace(s[0]) && |s| <= max
  {
  }

  // A value that collides under the shorter label starts with what is left of the longer one.
  lemma ShorterLabelGoesOn(env: Env, a: string, v: string, b: string, w: string)
    requires Lowers(env.lower) && v != "" && IsCut(v, MAX_VALUE) && |env.lower(a)| < |env.lower(b)|
    requires SameKey(env.lower(a), env.lower(v), env.lower(b), env.lower(w))
    ensures GoesOn(env.lower(a), env.lower(b))
  {
    var la, lv, lb, lw := env.lower(a), env.lower(v), env.lower(b), env.lower(w);
    CutStartsWithoutSpace(v, MAX_VALUE);
    assert lv != "" && !IsSpace(lv[0]);
    hide Lowers, IsSpace, IsCut;
    SameKeyContinues(la, lv, lb, lw);
    var key := la + "\n" + lv;
    assert key == lb + "\n" + lw;
    assert key[|la| + 1] == lv[0];
    if |lb| == |la| + 1 {
      assert key[|lb|] == '\n';
      LineFeedIsSpace();
      assert false;
    }
    assert key[|la| + 1] == lb[|la| + 1];
  }

  lemma LineFeedIsSpace()
    ensures IsSpace('\n')
  {
  }

  // What follows a line feed in a lowered label is lowered.
  lemma TailIsLowered(lower: string -> string, a: string, b: string) returns (t: string)
    requires Lowers(lower) && Continues(lower(a), lower(b))
    ensures lower(b) == lower(a) + "\n" + t && lower(t) == t && t == lower(b)[|lower(a)| + 1..]
  {
    var la, lb := lower(a), lower(b);
    t := lb[|la| + 1..];
    assert lb == la + "\n" + t;
    assert lower(la + "\n" + t) == lower(la) + "\n" + lower(t) && lower(lb) == lb && lower(la) == la;
    hide Lowers;
    Sequences.SamePrefix(la + "\n", lower(t), t);
  }

  lemma GoesOnCollides(env: Env, a: string, b: string) returns (v: string, w: string)
    requires Lowers(env.lower) && IsCut(b, MAX_LABEL) && GoesOn(env.lower(a), env.lower(b))
    ensures v != "" && w != "" && IsCut(v, MAX_VALUE) && IsCut(w, MAX_VALUE)
    ensures SameKey(env.lower(a), env.lower(v), env.lower(b), env.lower(w))
  {
    var t := TailIsLowered(env.lower, a, b);
    v, w := t + "\n" + "x", "x";
    assert env.lower(v) == t + "\n" + env.lower(w) && |env.lower(b)| <= 3 * |b|;
    assert |b| <= MAX_LABEL;
    hide Lowers, IsCut, IsSpace;
    SameAround(env.lower(a), t, env.lower(w));
    assert v[0] == t[0] && v[|v| - 1] == 'x';
    XIsNoSpace();
    TrimmedIsCut(v);
    TrimmedIsCut(w);
  }

  lemma SameAround(a: string, t: string, w: string)
    ensures a + "\n" + (t + "\n" + w) == a + "\n" + t + "\n" + w
  {
  }

  lemma XIsNoSpace()
    ensures !IsSpace('x')
  {
  }

  lemma TrimmedIsCut(s: string)
    requires s != "" && !IsSpace(s[0]) && !IsSpace(s[|s| - 1]) && |s| <= MAX_VALUE
    ensures IsCut(s, MAX_VALUE)
  {
    Text.TrimFixed(s);
    assert s == Clip(Text.Trim(s), MAX_VALUE);
  }

  /** Two labels of rows share a key, for some values that rows can have, if and only if one lowered label goes on after
      the other with a line feed and then something that does not start with space. */
  lemma LabelsCollideIff(env: Env, a: string, b: string, tone: Tone)
    requires Lowers(env.lower) && env.lower(a) != env.lower(b)
    requires a != "" && b != "" && IsCut(a, MAX_LABEL) && IsCut(b, MAX_LABEL)
    ensures LabelsCollide(env, a, b) <==>
      GoesOn(env.lower(a), env.lower(b)) || GoesOn(env.lower(b), env.lower(a))
  {
    hide IsCut, Lowers, GoesOn;
    var la, lb := env.lower(a), env.lower(b);
    if LabelsCollide(env, a, b) {
      var r, r' :| IsMade(r) && IsMade(r') && r.caption == a && r'.caption == b && Key(env)(r) == Key(env)(r');
      KeysDecide(env, a, r.value, b, r'.value);
    }
    if GoesOn(la, lb) {
      var v, w := GoesOnCollides(env, a, b);
      var r, r' := Row(a, v, tone), Row(b, w, tone);
      assert IsMade(r) && IsMade(r') && Key(env)(r) == Key(env)(r');
    }
    if GoesOn(lb, la) {
      var w, v := GoesOnCollides(env, b, a);
      var r, r' := Row(a, v, tone), Row(b, w, tone);
      assert IsMade(r) && IsMade(r') && Key(env)(r) == Key(env)(r');
    }
  }

  lemma KeysDecide(env: Env, a: string, v: string, b: string, w: string)
    requires Lowers(env.lower) && env.lower(a) != env.lower(b)
    requires v != "" && IsCut(v, MAX_VALUE) && w != "" && IsCut(w, MAX_VALUE)
    requires SameKey(env.lower(a), env.lower(v), env.lower(b), env.lower(w))
    ensures GoesOn(env.lower(a), env.lower(b)) || GoesOn(env.lower(b), env.lower(a))
  {
    var la, lb := env.lower(a), env.lower(b);
    hide IsCut, Lowers, GoesOn;
    if |la| <= |lb| {
      SameKeyContinues(la, env.lower(v), lb, env.lower(w));
      ShorterLabelGoesOn(env, a, v, b, w);
    } else {
      ShorterLabelGoesOn(env, b, w, a, v);
    }
  }

  /** For rows whose lowered labels do not go on after each other the key stands for the pair of label and value. */
  lemma KeySeparates(env: Env, r: Row, r': Row)
    requires !Continues(env.lower(r.caption), env.lower(r'.caption))
    requires !Continues(env.lower(r'.caption), env.lower(r.caption))
    ensures Key(env)(r) == Key(env)(r') <==>
      env.lower(r.caption) == env.lower(r'.caption) && env.lower(r.value) == env.lower(r'.value)
  {
    var a, v, b, w := env.lower(r.caption), env.lower(r.value), env.lower(r'.caption), env.lower(r'.value);
    hide Continues;
    if SameKey(a, v, b, w) {
      if |a| <= |b| {
        SameKeyContinues(a, v, b, w);
      } else {
        SameKeyContinues(b, w, a, v);
      }
    }
  }

  /** Otherwise it does not: two different rows can share a key, and the second is dropped. */
  lemma LineBreaksCollide(env: Env, tone: Tone)
    requires forall s | s in {"a", "a\nb", "b\nc", "c"} :: env.lower(s) == s
    ensures var r, r' := Row("a", "b\nc", tone), Row("a\nb", "c", tone);
      r != r' && Added(Key(env), [], [r, r']) == [r]
  {
    var r, r' := Row("a", "b\nc", tone), Row("a\nb", "c", tone);
    assert "a" + "\n" + "b\nc" == "a\nb" + "\n" + "c";
    assert r.caption != r'.caption by { assert |r.caption| != |r'.caption|; }
    assert [] + [r] == [r] && [r] + [r'] == [r, r'];
    AddedOneMore(Key(env), [], [], r);
    AddedOneMore(Key(env), [], [r], r');
    KeysOfMore(Key(env), [], r);
  }
}
