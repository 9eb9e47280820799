/** Merging two replicas of a chat (apps/browser-demo/src/chatCloudSync.ts).
    A JS Map from ids to messages is the sequence of its values in insertion order:
    setting a known id replaces the value in place, setting a new one appends. */
module ChatCloudSync {
  import opened Sequences
  import opened StableSort
  import opened Wrappers

  // `id` is None for a value that is missing or not a string; `createdAt` is String(value ?? '').
  datatype Message = Message(id: Option<string>, createdAt: string, content: string)

  predicate Identified(m: Message) {
    m.id.Some? && m.id.value != ""
  }

  predicate MapValues(entries: seq<Message>) {
    && (forall i | 0 <= i < |entries| :: Identified(entries[i]))
    && (forall i, j | 0 <= i < j < |entries| :: entries[i].id != entries[j].id)
  }

  function IndexOf(entries: seq<Message>, id: Option<string>): (k: nat)
    ensures k <= |entries|
    ensures k < |entries| ==> entries[k].id == id
    ensures forall i | 0 <= i < k :: entries[i].id != id
  {
    if entries == [] || entries[0].id == id then 0 else 1 + IndexOf(entries[1..], id)
  }

  function Put(entries: seq<Message>, m: Message): (r: seq<Message>)
    requires MapValues(entries) && Identified(m)
    ensures MapValues(r)
  {
    var k := IndexOf(entries, m.id);
    if k < |entries| then entries[k := m] else entries + [m]
  }

  function Collect(entries: seq<Message>, ms: seq<Message>): (r: seq<Message>)
    requires MapValues(entries)
    ensures MapValues(r)
    decreases |ms|
  {
    if ms == [] then entries
    else Collect(if Identified(ms[0]) then Put(entries, ms[0]) else entries, ms[1..])
  }

  // `collate(a, b)` is a.localeCompare(b) <= 0.
  function ByCreatedAt(collate: (string, string) -> bool): (Message, Message) -> bool {
    (a: Message, b: Message) => collate(a.createdAt, b.createdAt)
  }

  function Merged(server: seq<Message>, local: seq<Message>, collate: (string, string) -> bool): seq<Message> {
    Sort(Collect([], server + local), ByCreatedAt(collate))
  }

  method MergeChatMessagesById(server: seq<Message>, local: seq<Message>, collate: (string, string) -> bool)
    returns (merged: seq<Message>)
    ensures merged == Merged(server, local, collate)
  {
    var byId: seq<Message> := [];
    var all := server + local;
    for i := 0 to |all|
      invariant MapValues(byId)
      invariant Collect(byId, all[i..]) == Collect([], all)
    {
      assert all[i..][1..] == all[i + 1..];
      if Identified(all[i]) {
        byId := Put(byId, all[i]);
      }
    }
    merged := Sort(byId, ByCreatedAt(collate));
  }

  // ---- What the merge holds -------------------------------------------------

  // `m` is the last message of `ms` under its id.
  ghost predicate LastOfItsId(ms: seq<Message>, m: Message) {
    exists k | 0 <= k < |ms| :: ms[k] == m && m.id.Some? && m.id.value != "" && forall j | k < j < |ms| :: ms[j].id != m.id
  }

  lemma {:induction false} CollectHolds(entries: seq<Message>, ms: seq<Message>)
    requires MapValues(entries)
    ensures forall m :: m in Collect(entries, ms) <==>
      LastOfItsId(ms, m) || (m in entries && forall j | 0 <= j < |ms| :: ms[j].id != m.id)
    decreases |ms|
  {
    if ms != [] {
      var rest := ms[1..];
      var next := if Identified(ms[0]) then Put(entries, ms[0]) else entries;
      CollectHolds(next, rest);
      forall m ensures m in Collect(entries, ms) <==>
        LastOfItsId(ms, m) || (m in entries && forall j | 0 <= j < |ms| :: ms[j].id != m.id)
      {
        PutHolds(entries, ms[0], m);
        LastOfTail(ms, m);
        assert (forall j | 0 <= j < |ms| :: ms[j].id != m.id) <==>
          ms[0].id != m.id && forall j | 0 <= j < |rest| :: rest[j].id != m.id by {
          assert forall j | 0 < j < |ms| :: ms[j] == rest[j - 1];
          assert forall j | 0 <= j < |rest| :: rest[j] == ms[j + 1];
        }
      }
    }
  }

  lemma PutHolds(entries: seq<Message>, x: Message, m: Message)
    requires MapValues(entries)
    ensures Identified(x) ==> (m in Put(entries, x) <==> m == x || (m in entries && m.id != x.id))
    ensures m in entries && !Identified(x) ==> m.id != x.id
  {
    if Identified(x) {
      var k := IndexOf(entries, x.id);
      var r := Put(entries, x);
      if m in entries && m.id != x.id {
        var i :| 0 <= i < |entries| && entries[i] == m;
        assert r[i] == m;
      }
      assert k < |entries| ==> r[k] == x;
      assert k == |entries| ==> r[k] == x;
    }
  }

  lemma LastOfTail(ms: seq<Message>, m: Message)
    requires ms != []
    ensures LastOfItsId(ms, m) <==>
      LastOfItsId(ms[1..], m) ||
      (m == ms[0] && Identified(m) && forall j | 0 <= j < |ms[1..]| :: ms[1..][j].id != m.id)
  {
    var rest := ms[1..];
    assert forall j | 0 < j < |ms| :: ms[j] == rest[j - 1];
    if LastOfItsId(rest, m) {
      var k :| 0 <= k < |rest| && rest[k] == m && Identified(m) && forall j | k < j < |rest| :: rest[j].id != m.id;
      assert ms[k + 1] == m;
    }
    if LastOfItsId(ms, m) {
      var k :| 0 <= k < |ms| && ms[k] == m && Identified(m) && forall j | k < j < |ms| :: ms[j].id != m.id;
      if k > 0 {
        assert rest[k - 1] == m;
        assert forall j | k - 1 < j < |rest| :: rest[j] == ms[j + 1];
      } else {
        assert forall j | 0 <= j < |rest| :: rest[j] == ms[j + 1];
      }
    }
  }

  /** The merge holds exactly the last copy of each usable id, once, in createdAt order. */
  lemma MergeIsTheUnion(server: seq<Message>, local: seq<Message>, collate: (string, string) -> bool)
    requires TotalPreorder(ByCreatedAt(collate))
    ensures var r := Merged(server, local, collate);
      && (forall m :: m in r <==> LastOfItsId(server + local, m))
      && (forall i, j | 0 <= i < j < |r| :: r[i].id != r[j].id)
      && Sorted(r, ByCreatedAt(collate))
  {
    var d := Collect([], server + local);
    CollectHolds([], server + local);
    SortPermutes(d, ByCreatedAt(collate));
    SortSorts(d, ByCreatedAt(collate));
    SortKeepsMapValues(d, ByCreatedAt(collate));
  }

  /** On a collision the local copy wins: the last local copy of an id is always in the merge. */
  lemma LocalWins(server: seq<Message>, local: seq<Message>, collate: (string, string) -> bool, m: Message)
    requires TotalPreorder(ByCreatedAt(collate)) && LastOfItsId(local, m)
    ensures m in Merged(server, local, collate)
    ensures forall x | x in Merged(server, local, collate) && x.id == m.id :: x == m
  {
    var all := server + local;
    var k :| 0 <= k < |local| && local[k] == m && Identified(m) && forall j | k < j < |local| :: local[j].id != m.id;
    assert all[|server| + k] == m;
    assert forall j | |server| + k < j < |all| :: all[j] == local[j - |server|];
    assert LastOfItsId(all, m);
    MergeIsTheUnion(server, local, collate);
  }

  lemma {:induction false} InsertKeepsMapValues(x: Message, entries: seq<Message>, le: (Message, Message) -> bool)
    requires Identified(x) && MapValues(entries) && forall i | 0 <= i < |entries| :: entries[i].id != x.id
    ensures MapValues(Insert(x, entries, le))
  {
    if entries != [] && !le(x, entries[0]) {
      var rest := entries[1..];
      var tail := Insert(x, rest, le);
      assert Insert(x, entries, le) == [entries[0]] + tail;
      hide Insert, Identified;
      InsertKeepsMapValues(x, rest, le);
      InsertMultiset(x, rest, le);
      forall j | 0 <= j < |tail| ensures tail[j].id != entries[0].id {
        assert tail[j] in multiset(tail);
        assert tail[j] == x || tail[j] in rest;
      }
    }
  }

  lemma {:induction false} SortKeepsMapValues(entries: seq<Message>, le: (Message, Message) -> bool)
    requires MapValues(entries)
    ensures MapValues(Sort(entries, le))
  {
    if entries != [] {
      var sorted := Sort(entries[1..], le);
      SortKeepsMapValues(entries[1..], le);
      SortPermutes(entries[1..], le);
      forall i | 0 <= i < |sorted| ensures sorted[i].id != entries[0].id {
        assert sorted[i] in multiset(sorted);
        assert sorted[i] in entries[1..];
      }
      InsertKeepsMapValues(entries[0], sorted, le);
    }
  }

  // ---- Idempotence ------------------------------------------------------------

  lemma {:induction false} CollectConcat(entries: seq<Message>, xs: seq<Message>, ys: seq<Message>)
    requires MapValues(entries)
    ensures Collect(entries, xs + ys) == Collect(Collect(entries, xs), ys)
    decreases |xs|
  {
    if xs == [] {
      assert xs + ys == ys;
    } else {
      assert (xs + ys)[1..] == xs[1..] + ys;
      CollectConcat(if Identified(xs[0]) then Put(entries, xs[0]) else entries, xs[1..], ys);
    }
  }

  // Collecting map values onto the values already in front of them appends them.
  lemma {:induction false} CollectDistinct(entries: seq<Message>, ms: seq<Message>)
    requires MapValues(entries + ms) && MapValues(entries)
    ensures Collect(entries, ms) == entries + ms
    decreases |ms|
  {
    if ms == [] {
      assert entries + ms == entries;
    } else {
      assert (entries + ms)[|entries|] == ms[0];
      assert forall i | 0 <= i < |entries| :: (entries + ms)[i] == entries[i];
      assert entries + ms == (entries + [ms[0]]) + ms[1..];
      CollectDistinct(entries + [ms[0]], ms[1..]);
    }
  }

  lemma {:induction false} CollectOwnValues(entries: seq<Message>, ms: seq<Message>)
    requires MapValues(entries) && forall m | m in ms :: m in entries
    ensures Collect(entries, ms) == entries
    decreases |ms|
  {
    if ms != [] {
      assert ms[0] in ms && Put(entries, ms[0]) == entries;
      forall m | m in ms[1..] ensures m in entries {
        assert m in ms;
      }
      CollectOwnValues(entries, ms[1..]);
    }
  }

  lemma MergeIsIdempotent(server: seq<Message>, local: seq<Message>, collate: (string, string) -> bool)
    requires TotalPreorder(ByCreatedAt(collate))
    ensures var m := Merged(server, local, collate); Merged(m, m, collate) == m
  {
    var d := Collect([], server + local);
    var m := Sort(d, ByCreatedAt(collate));
    SortKeepsMapValues(d, ByCreatedAt(collate));
    SortSorts(d, ByCreatedAt(collate));
    CollectConcat([], m, m);
    assert [] + m == m;
    CollectDistinct([], m);
    CollectOwnValues(m, m);
    SortedIsFixed(m, ByCreatedAt(collate));
  }

  // ---- The order of the merge ----------------------------------------------------

  predicate IsId(id: Option<string>) {
    id.Some? && id.value != ""
  }

  predicate Has(ms: seq<Message>, id: Option<string>) {
    IndexOf(ms, id) < |ms|
  }

  // The first message under u comes before the first one under v.
  predicate Precedes(ms: seq<Message>, u: Option<string>, v: Option<string>) {
    IndexOf(ms, u) < IndexOf(ms, v)
  }

  lemma IndexIs(ms: seq<Message>, id: Option<string>, k: nat)
    requires k <= |ms| && (k < |ms| ==> ms[k].id == id) && forall i | 0 <= i < k :: ms[i].id != id
    ensures IndexOf(ms, id) == k
  {
    hide Identified;
  }

  lemma IndexInConcat(a: seq<Message>, b: seq<Message>, id: Option<string>)
    ensures IndexOf(a + b, id) == if Has(a, id) then IndexOf(a, id) else |a| + IndexOf(b, id)
  {
    IndexIs(a + b, id, if Has(a, id) then IndexOf(a, id) else |a| + IndexOf(b, id));
  }

  // The map holds the usable ids of the list, in the order in which they first come.
  ghost predicate KeepsFirsts(d: seq<Message>, ms: seq<Message>) {
    && (forall id :: Has(d, id) <==> IsId(id) && Has(ms, id))
    && (forall u, v | Has(d, u) && Has(d, v) :: Precedes(d, u, v) <==> Precedes(ms, u, v))
  }

  lemma PutIndex(d: seq<Message>, x: Message, id: Option<string>)
    requires MapValues(d) && Identified(x)
    ensures IndexOf(Put(d, x), id) ==
      if Has(d, id) then IndexOf(d, id) else if Has(d, x.id) then |d| else IndexOf(d + [x], id)
  {
    var k := IndexOf(d, x.id);
    if k < |d| {
      var r := d[k := x];
      assert forall i | 0 <= i < |d| :: r[i].id == d[i].id;
      IndexIs(r, id, IndexOf(d, id));
    } else {
      IndexInConcat(d, [x], id);
    }
  }

  lemma IndexOfOne(x: Message, id: Option<string>)
    ensures IndexOf([x], id) == if x.id == id then 0 else 1
  {
    IndexIs([x], id, if x.id == id then 0 else 1);
  }

  lemma IndexOfMore(ms: seq<Message>, x: Message, id: Option<string>)
    ensures IndexOf(ms + [x], id) == if Has(ms, id) then IndexOf(ms, id) else if x.id == id then |ms| else |ms| + 1
  {
    hide IndexOf;
    IndexInConcat(ms, [x], id);
    IndexOfOne(x, id);
  }

  // Where an id stands in the map and in the list once one more message has come.
  lemma IndexAfter(d: seq<Message>, ms: seq<Message>, x: Message, id: Option<string>)
    requires MapValues(d) && Identified(x)
    ensures |Put(d, x)| == if Has(d, x.id) then |d| else |d| + 1
    ensures IndexOf(Put(d, x), id)
      == if Has(d, id) then IndexOf(d, id) else if Has(d, x.id) || x.id == id then |d| else |d| + 1
    ensures IndexOf(ms + [x], id) == if Has(ms, id) then IndexOf(ms, id) else if x.id == id then |ms| else |ms| + 1
  {
    hide Put, IndexOf, MapValues;
    PutLength(d, x);
    PutIndex(d, x, id);
    IndexOfMore(d, x, id);
    IndexOfMore(ms, x, id);
  }

  lemma KeepsIds(d: seq<Message>, ms: seq<Message>, x: Message, id: Option<string>)
    requires MapValues(d) && Identified(x)
    requires (Has(d, id) <==> IsId(id) && Has(ms, id)) && (Has(d, x.id) <==> Has(ms, x.id))
    ensures Has(Put(d, x), id) <==> IsId(id) && Has(ms + [x], id)
  {
    hide Put, IndexOf, MapValues;
    IndexAfter(d, ms, x, id);
  }

  lemma KeepsOrder(d: seq<Message>, ms: seq<Message>, x: Message, u: Option<string>, v: Option<string>)
    requires MapValues(d) && Identified(x) && Has(Put(d, x), u) && Has(Put(d, x), v)
    requires (Has(d, u) <==> IsId(u) && Has(ms, u)) && (Has(d, v) <==> IsId(v) && Has(ms, v))
    requires (Has(d, x.id) <==> Has(ms, x.id)) && (Has(d, u) && Has(d, v) ==> (Precedes(d, u, v) <==> Precedes(ms, u, v)))
    ensures Precedes(Put(d, x), u, v) <==> Precedes(ms + [x], u, v)
  {
    hide Put, IndexOf, MapValues;
    IndexAfter(d, ms, x, u);
    IndexAfter(d, ms, x, v);
  }

  lemma KeepsOneMore(d: seq<Message>, ms: seq<Message>, x: Message)
    requires MapValues(d) && KeepsFirsts(d, ms)
    ensures KeepsFirsts(if Identified(x) then Put(d, x) else d, ms + [x])
  {
    hide Put, IndexOf, MapValues, Has, Precedes;
    if Identified(x) {
      assert Has(d, x.id) <==> IsId(x.id) && Has(ms, x.id);
      forall id ensures Has(Put(d, x), id) <==> IsId(id) && Has(ms + [x], id) {
        KeepsIds(d, ms, x, id);
      }
      forall u, v | Has(Put(d, x), u) && Has(Put(d, x), v)
        ensures Precedes(Put(d, x), u, v) <==> Precedes(ms + [x], u, v)
      {
        KeepsOrder(d, ms, x, u, v);
      }
    } else {
      forall id ensures IsId(id) ==> (Has(ms + [x], id) <==> Has(ms, id)) {
        IndexUnchanged(ms, x, id);
      }
      forall u, v | Has(d, u) && Has(d, v) ensures Precedes(ms + [x], u, v) <==> Precedes(ms, u, v) {
        IndexUnchanged(ms, x, u);
        IndexUnchanged(ms, x, v);
        SamePlaces(ms, ms + [x], u, v);
      }
    }
  }

  lemma IndexUnchanged(ms: seq<Message>, x: Message, id: Option<string>)
    requires !Identified(x)
    ensures IsId(id) ==> (Has(ms + [x], id) <==> Has(ms, id))
    ensures IsId(id) && Has(ms, id) ==> IndexOf(ms + [x], id) == IndexOf(ms, id)
  {
    hide IndexOf;
    IndexOfMore(ms, x, id);
  }

  lemma SamePlaces(a: seq<Message>, b: seq<Message>, u: Option<string>, v: Option<string>)
    requires IndexOf(a, u) == IndexOf(b, u) && IndexOf(a, v) == IndexOf(b, v)
    ensures Precedes(a, u, v) <==> Precedes(b, u, v)
  {
  }

  lemma PutLength(d: seq<Message>, x: Message)
    requires MapValues(d) && Identified(x)
    ensures |Put(d, x)| == if Has(d, x.id) then |d| else |d| + 1
  {
  }

  lemma {:induction false} CollectKeepsFirsts(ms: seq<Message>)
    ensures KeepsFirsts(Collect([], ms), ms)
  {
    if ms != [] {
      var front, x := ms[..|ms| - 1], ms[|ms| - 1];
      assert ms == front + [x];
      CollectKeepsFirsts(front);
      CollectConcat([], front, [x]);
      CollectLast(Collect([], front), x);
      KeepsOneMore(Collect([], front), front, x);
    }
  }

  lemma CollectLast(d: seq<Message>, x: Message)
    requires MapValues(d)
    ensures Collect(d, [x]) == if Identified(x) then Put(d, x) else d
  {
    One(x);
    assert Collect(d, [x]) == Collect(if Identified(x) then Put(d, x) else d, []);
  }

  predicate Tied(collate: (string, string) -> bool, x: Message, y: Message) {
    collate(x.createdAt, y.createdAt) && collate(y.createdAt, x.createdAt)
  }

  // The elements of a map that satisfy p, when these are two or one.
  lemma {:induction false} FilterPair(p: Message -> bool, d: seq<Message>, x: Message, y: Message)
    requires MapValues(d) && x in d && y in d && p(x) && p(y) && forall m | m in d && p(m) :: m == x || m == y
    requires Precedes(d, x.id, y.id)
    ensures Filter(p, d) == [x, y]
  {
    FilterFirst(p, d);
    RestMember(d, x);
    RestMember(d, y);
    RestValues(d);
    assert d[0] in d && d[0] != y;
    assert d[0] != x ==> Precedes(d[1..], x.id, y.id) by {
      if d[0] != x {
        assert d[0].id != x.id && d[0].id != y.id;
      }
    }
    hide Filter, IndexOf, MapValues;
    if d[0] == x {
      FilterSingle(p, d[1..], y);
    } else {
      FilterPair(p, d[1..], x, y);
      NoneThen([x, y]);
    }
  }

  lemma {:induction false} FilterSingle(p: Message -> bool, d: seq<Message>, y: Message)
    requires MapValues(d) && y in d && p(y) && forall m | m in d && p(m) :: m == y
    ensures Filter(p, d) == [y]
  {
    FilterFirst(p, d);
    RestMember(d, y);
    RestValues(d);
    assert d[0] in d;
    hide Filter, MapValues;
    if d[0] == y {
      FilterNone(p, d[1..]);
    } else {
      FilterSingle(p, d[1..], y);
    }
    NoneThen([y]);
  }

  lemma {:induction false} FilterNone(p: Message -> bool, d: seq<Message>)
    requires forall m | m in d :: !p(m)
    ensures Filter(p, d) == []
  {
    if d != [] {
      assert d[0] in d && forall m | m in d[1..] :: m in d;
      FilterNone(p, d[1..]);
    }
  }

  // Sorting keeps the order of two messages that tie.
  lemma SortKeepsTie(d: seq<Message>, collate: (string, string) -> bool, x: Message, y: Message)
    requires TotalPreorder(ByCreatedAt(collate)) && MapValues(d) && x in d && y in d
    requires Tied(collate, x, y) && Precedes(d, x.id, y.id)
    ensures Precedes(Sort(d, ByCreatedAt(collate)), x.id, y.id)
  {
    var le := ByCreatedAt(collate);
    var r := Sort(d, le);
    var p := (m: Message) => m == x || m == y;
    assert le(x, x) && le(y, y);
    SortKeepsMapValues(d, le);
    SortPermutes(d, le);
    SortIsStable(d, le, p);
    FilterPair(p, d, x, y);
    IndexOfMember(r, x);
    IndexOfMember(r, y);
    assert [x, y][0] != [y, x][0];
    if Precedes(r, y.id, x.id) {
      FilterPair(p, r, y, x);
      assert false;
    }
  }

  lemma IndexOfMember(d: seq<Message>, x: Message)
    requires MapValues(d) && x in d
    ensures Has(d, x.id) && d[IndexOf(d, x.id)] == x
  {
    var k :| 0 <= k < |d| && d[k] == x;
    IndexIs(d, x.id, k);
  }

  /** The order of the merge: by createdAt, and messages that tie as their ids first came in the two lists. */
  lemma MergeOrder(server: seq<Message>, local: seq<Message>, collate: (string, string) -> bool, x: Message, y: Message)
    requires TotalPreorder(ByCreatedAt(collate))
    requires x in Merged(server, local, collate) && y in Merged(server, local, collate) && x.id != y.id
    ensures Precedes(Merged(server, local, collate), x.id, y.id) <==>
      if Tied(collate, x, y) then Precedes(server + local, x.id, y.id) else collate(x.createdAt, y.createdAt)
  {
    var le := ByCreatedAt(collate);
    var d, r := Collect([], server + local), Merged(server, local, collate);
    CollectKeepsFirsts(server + local);
    SortPermutes(d, le);
    SortKeepsMapValues(d, le);
    SortSorts(d, le);
    IndexOfMember(d, x);
    IndexOfMember(d, y);
    IndexOfMember(r, x);
    IndexOfMember(r, y);
    assert le(x, y) || le(y, x);
    hide Collect, Sort, IndexOf, MapValues;
    if Tied(collate, x, y) {
      if Precedes(d, x.id, y.id) {
        SortKeepsTie(d, collate, x, y);
      } else {
        SortKeepsTie(d, collate, y, x);
      }
    }
  }

  /** Messages that tie stand in the order in which their ids first came. */
  lemma TiesKeepFirstOccurrence(server: seq<Message>, local: seq<Message>, collate: (string, string) -> bool)
    requires TotalPreorder(ByCreatedAt(collate))
    ensures var r := Merged(server, local, collate);
      forall i, j | 0 <= i < |r| && 0 <= j < |r| && Tied(collate, r[i], r[j]) ::
        i < j <==> Precedes(server + local, r[i].id, r[j].id)
  {
    var le := ByCreatedAt(collate);
    var r := Merged(server, local, collate);
    SortKeepsMapValues(Collect([], server + local), le);
    hide Merged;
    forall i, j | 0 <= i < |r| && 0 <= j < |r| && Tied(collate, r[i], r[j])
      ensures i < j <==> Precedes(server + local, r[i].id, r[j].id)
    {
      IndexIs(r, r[i].id, i);
      IndexIs(r, r[j].id, j);
      if i != j {
        MergeOrder(server, local, collate, r[i], r[j]);
      }
    }
  }

  lemma IndexOfFirst(d: seq<Message>)
    requires d != []
    ensures IndexOf(d, d[0].id) == 0
  {
  }

  // Two maps of the same messages in the same order start alike.
  lemma SameFirst(r: seq<Message>, s: seq<Message>)
    requires MapValues(r) && MapValues(s) && r != [] && s != [] && forall m :: m in r <==> m in s
    requires forall x, y | x in r && y in r && Precedes(r, x.id, y.id) :: Precedes(s, x.id, y.id)
    ensures r[0] == s[0]
  {
    hide IndexOf;
    assert s[0] in s && r[0] in r;
    IndexOfMember(r, s[0]);
    IndexOfFirst(r);
    IndexOfFirst(s);
    assert !Precedes(r, r[0].id, s[0].id);
  }

  lemma {:induction false} SameOrderSameList(r: seq<Message>, s: seq<Message>)
    requires MapValues(r) && MapValues(s) && forall m :: m in r <==> m in s
    requires forall x, y | x in r && y in r && Precedes(r, x.id, y.id) :: Precedes(s, x.id, y.id)
    ensures r == s
  {
    assert |r| > 0 ==> r[0] in r;
    assert |s| > 0 ==> s[0] in s;
    if r != [] {
      SameFirst(r, s);
      var r', s' := r[1..], s[1..];
      FirstThenRest(r);
      FirstThenRest(s);
      RestValues(r);
      RestValues(s);
      hide IndexOf, MapValues;
      forall m ensures m in r' <==> m in s' {
        RestMember(r, m);
        RestMember(s, m);
      }
      forall x, y | x in r' && y in r' && Precedes(r', x.id, y.id) ensures Precedes(s', x.id, y.id) {
        RestMember(r, x);
        RestMember(r, y);
        RestIndex(r, x.id);
        RestIndex(r, y.id);
        RestIndex(s, x.id);
        RestIndex(s, y.id);
      }
      SameOrderSameList(r', s');
    }
  }

  lemma RestValues(r: seq<Message>)
    requires MapValues(r) && r != []
    ensures MapValues(r[1..]) && forall m | m in r[1..] :: m in r && m != r[0]
  {
    assert forall i | 0 < i < |r| :: r[i].id != r[0].id;
  }

  lemma RestMember(r: seq<Message>, m: Message)
    requires MapValues(r) && r != []
    ensures m in r[1..] <==> m in r && m.id != r[0].id
  {
    if m in r && m.id != r[0].id {
      var k :| 0 <= k < |r| && r[k] == m;
      assert r[1..][k - 1] == m;
    }
  }

  lemma RestIndex(r: seq<Message>, id: Option<string>)
    requires r != [] && r[0].id != id
    ensures IndexOf(r, id) == 1 + IndexOf(r[1..], id)
  {
  }

  // ---- Associativity ----------------------------------------------------------------

  lemma LastInConcat(p: seq<Message>, q: seq<Message>, m: Message)
    ensures LastOfItsId(p + q, m) <==> LastOfItsId(q, m) || (LastOfItsId(p, m) && !Has(q, m.id))
  {
    hide LastOfItsId;
    if LastOfItsId(q, m) {
      LastInBack(p, q, m);
    }
    if LastOfItsId(p, m) && !Has(q, m.id) {
      LastInFront(p, q, m);
    }
    if LastOfItsId(p + q, m) {
      LastInEither(p, q, m);
    }
  }

  lemma LastInBack(p: seq<Message>, q: seq<Message>, m: Message)
    requires LastOfItsId(q, m)
    ensures LastOfItsId(p + q, m)
  {
    var all := p + q;
    var k :| 0 <= k < |q| && q[k] == m && Identified(m) && forall j | k < j < |q| :: q[j].id != m.id;
    assert all[|p| + k] == m && forall j | |p| + k < j < |all| :: all[j] == q[j - |p|];
  }

  lemma LastInFront(p: seq<Message>, q: seq<Message>, m: Message)
    requires LastOfItsId(p, m) && !Has(q, m.id)
    ensures LastOfItsId(p + q, m)
  {
    var all := p + q;
    var k :| 0 <= k < |p| && p[k] == m && Identified(m) && forall j | k < j < |p| :: p[j].id != m.id;
    assert all[k] == m && forall j | |p| <= j < |all| :: all[j] == q[j - |p|];
  }

  lemma LastInEither(p: seq<Message>, q: seq<Message>, m: Message)
    requires LastOfItsId(p + q, m)
    ensures LastOfItsId(q, m) || (LastOfItsId(p, m) && !Has(q, m.id))
  {
    var all := p + q;
    var k :| 0 <= k < |all| && all[k] == m && Identified(m) && forall j | k < j < |all| :: all[j].id != m.id;
    assert forall j | 0 <= j < |q| :: q[j] == all[|p| + j];
    if k < |p| {
      assert p[k] == m && forall j | 0 <= j < |p| :: p[j] == all[j];
    } else {
      assert q[k - |p|] == m;
    }
  }

  // What the two lists hold is all that a merge with the result needs.
  lemma MergedHolds(a: seq<Message>, b: seq<Message>, collate: (string, string) -> bool, m: Message)
    requires TotalPreorder(ByCreatedAt(collate))
    ensures MapValues(Merged(a, b, collate))
    ensures LastOfItsId(Merged(a, b, collate), m) <==> m in Merged(a, b, collate)
    ensures m in Merged(a, b, collate) <==> LastOfItsId(a + b, m)
    ensures Identified(m) ==> (Has(Merged(a, b, collate), m.id) <==> Has(a + b, m.id))
  {
    var d, r := Collect([], a + b), Merged(a, b, collate);
    MergeIsTheUnion(a, b, collate);
    SortKeepsMapValues(d, ByCreatedAt(collate));
    CollectKeepsFirsts(a + b);
    SortPermutes(d, ByCreatedAt(collate));
    hide Collect, Merged, IndexOf, Sort;
    if Has(d, m.id) {
      IndexOfMember(r, d[IndexOf(d, m.id)]);
    }
    if Has(r, m.id) {
      assert r[IndexOf(r, m.id)] in d;
      IndexOfMember(d, r[IndexOf(r, m.id)]);
    }
  }

  // A copy of one id stands apart from y, another one ties with it.
  predicate Moves(collate: (string, string) -> bool, x: Message, x': Message, y: Message) {
    Identified(x) && Identified(y) && x.id == x'.id != y.id && Tied(collate, x', y) && !Tied(collate, x, y)
  }

  ghost predicate SomeCopyMoves(p: iset<Message>, collate: (string, string) -> bool) {
    exists x, x', y :: x in p && x' in p && y in p && Moves(collate, x, x', y)
  }

  ghost predicate DrawnFrom(p: iset<Message>, ms: seq<Message>) {
    forall m | m in ms :: m in p
  }

  ghost predicate AssociativeOn(p: iset<Message>, collate: (string, string) -> bool) {
    forall a, b, c | DrawnFrom(p, a) && DrawnFrom(p, b) && DrawnFrom(p, c) ::
      Merged(Merged(a, b, collate), c, collate) == Merged(a, Merged(b, c, collate), collate)
  }

  // A front part that keeps the ids, and the order of u and v, of what it replaces.
  lemma FrontKeepsOrder(m: seq<Message>, p: seq<Message>, c: seq<Message>, u: Option<string>, v: Option<string>)
    requires (Has(m, u) <==> Has(p, u)) && (Has(m, v) <==> Has(p, v))
    requires Has(p, u) && Has(p, v) ==> (Precedes(m, u, v) <==> Precedes(p, u, v))
    ensures Precedes(m + c, u, v) <==> Precedes(p + c, u, v)
  {
    IndexInConcat(m, c, u);
    IndexInConcat(m, c, v);
    IndexInConcat(p, c, u);
    IndexInConcat(p, c, v);
  }

  lemma BackKeepsOrder(a: seq<Message>, m: seq<Message>, p: seq<Message>, u: Option<string>, v: Option<string>)
    requires (Has(m, u) <==> Has(p, u)) && (Has(m, v) <==> Has(p, v)) && Has(a + p, u) && Has(a + p, v)
    requires Has(p, u) && Has(p, v) ==> (Precedes(m, u, v) <==> Precedes(p, u, v))
    ensures Precedes(a + m, u, v) <==> Precedes(a + p, u, v)
  {
    IndexInConcat(a, m, u);
    IndexInConcat(a, m, v);
    IndexInConcat(a, p, u);
    IndexInConcat(a, p, v);
  }

  // Where no copy moves, all copies of two ids tie when two of them do.
  lemma CopiesTie(p: iset<Message>, collate: (string, string) -> bool, x: Message, y: Message, x': Message, y': Message)
    requires !SomeCopyMoves(p, collate) && x in p && y in p && x' in p && y' in p
    requires Identified(x) && Identified(y) && x.id == x'.id != y.id && y.id == y'.id && Tied(collate, x, y)
    ensures Tied(collate, x', y')
  {
    assert !Moves(collate, x', x, y);
    assert !Moves(collate, y', y, x');
  }

  lemma DrawnLast(p: iset<Message>, ms: seq<Message>, m: Message)
    requires DrawnFrom(p, ms) && LastOfItsId(ms, m)
    ensures m in p && Identified(m)
  {
  }

  // Where no copy moves, a merge orders two ids that tie as its two lists do.
  lemma MergeKeepsTiedOrder(p: iset<Message>, a: seq<Message>, b: seq<Message>, collate: (string, string) -> bool,
                            x: Message, y: Message)
    requires TotalPreorder(ByCreatedAt(collate)) && !SomeCopyMoves(p, collate) && DrawnFrom(p, a) && DrawnFrom(p, b)
    requires x in p && y in p && Identified(x) && Identified(y) && x.id != y.id && Tied(collate, x, y)
    ensures var r := Merged(a, b, collate);
      && (Has(r, x.id) <==> Has(a + b, x.id)) && (Has(r, y.id) <==> Has(a + b, y.id))
      && (Has(a + b, x.id) && Has(a + b, y.id) ==> (Precedes(r, x.id, y.id) <==> Precedes(a + b, x.id, y.id)))
  {
    var r := Merged(a, b, collate);
    MergedHolds(a, b, collate, x);
    MergedHolds(a, b, collate, y);
    hide Merged, LastOfItsId, MapValues;
    if Has(r, x.id) && Has(r, y.id) {
      var x', y' := r[IndexOf(r, x.id)], r[IndexOf(r, y.id)];
      MergedHolds(a, b, collate, x');
      MergedHolds(a, b, collate, y');
      DrawnLast(p, a + b, x');
      DrawnLast(p, a + b, y');
      CopiesTie(p, collate, x, y, x', y');
      MergeOrder(a, b, collate, x', y');
    }
  }

  // Either way of merging three lists holds the last copy of each id in all of them.
  lemma BothHold(a: seq<Message>, b: seq<Message>, c: seq<Message>, collate: (string, string) -> bool, m: Message)
    requires TotalPreorder(ByCreatedAt(collate))
    ensures m in Merged(Merged(a, b, collate), c, collate) <==> LastOfItsId(a + b + c, m)
    ensures m in Merged(a, Merged(b, c, collate), collate) <==> LastOfItsId(a + b + c, m)
  {
    var ab, bc := Merged(a, b, collate), Merged(b, c, collate);
    MergedHolds(a, b, collate, m);
    MergedHolds(b, c, collate, m);
    MergedHolds(ab, c, collate, m);
    MergedHolds(a, bc, collate, m);
    assert LastOfItsId(a, m) ==> Identified(m);
    hide Merged, LastOfItsId;
    LastInConcat(ab, c, m);
    LastInConcat(a + b, c, m);
    LastInConcat(a, bc, m);
    LastInConcat(a, b + c, m);
    Assoc(a, b, c);
  }

  lemma AssociativeWhereNoCopyMoves(
      p: iset<Message>, a: seq<Message>, b: seq<Message>, c: seq<Message>, collate: (string, string) -> bool)
    requires TotalPreorder(ByCreatedAt(collate)) && !SomeCopyMoves(p, collate)
    requires DrawnFrom(p, a) && DrawnFrom(p, b) && DrawnFrom(p, c)
    ensures Merged(Merged(a, b, collate), c, collate) == Merged(a, Merged(b, c, collate), collate)
  {
    var ab, bc := Merged(a, b, collate), Merged(b, c, collate);
    var l, r := Merged(ab, c, collate), Merged(a, bc, collate);
    forall m ensures m in l <==> m in r {
      BothHold(a, b, c, collate, m);
    }
    forall x, y | x in l && y in l && Precedes(l, x.id, y.id) ensures Precedes(r, x.id, y.id) {
      BothHold(a, b, c, collate, x);
      BothHold(a, b, c, collate, y);
      SameOrderInBoth(p, a, b, c, collate, x, y);
    }
    MergedValues(ab, c, collate);
    MergedValues(a, bc, collate);
    hide Merged;
    SameOrderSameList(l, r);
  }

  lemma MergedValues(a: seq<Message>, b: seq<Message>, collate: (string, string) -> bool)
    requires TotalPreorder(ByCreatedAt(collate))
    ensures MapValues(Merged(a, b, collate))
  {
    SortKeepsMapValues(Collect([], a + b), ByCreatedAt(collate));
  }

  lemma SameOrderInBoth(p: iset<Message>, a: seq<Message>, b: seq<Message>, c: seq<Message>,
                        collate: (string, string) -> bool, x: Message, y: Message)
    requires TotalPreorder(ByCreatedAt(collate)) && !SomeCopyMoves(p, collate)
    requires DrawnFrom(p, a) && DrawnFrom(p, b) && DrawnFrom(p, c)
    requires LastOfItsId(a + b + c, x) && LastOfItsId(a + b + c, y) && x.id != y.id
    ensures Precedes(Merged(Merged(a, b, collate), c, collate), x.id, y.id)
      <==> Precedes(Merged(a, Merged(b, c, collate), collate), x.id, y.id)
  {
    var ab, bc := Merged(a, b, collate), Merged(b, c, collate);
    BothHold(a, b, c, collate, x);
    BothHold(a, b, c, collate, y);
    DrawnLast(p, a + b + c, x);
    DrawnLast(p, a + b + c, y);
    HasLast(a + b + c, x);
    HasLast(a + b + c, y);
    hide LastOfItsId;
    MergeOrder(ab, c, collate, x, y);
    MergeOrder(a, bc, collate, x, y);
    if Tied(collate, x, y) {
      MergeKeepsTiedOrder(p, a, b, collate, x, y);
      MergeKeepsTiedOrder(p, b, c, collate, x, y);
      hide Merged, SomeCopyMoves, DrawnFrom, Precedes, Has;
      FrontKeepsOrder(ab, a + b, c, x.id, y.id);
      Assoc(a, b, c);
      BackKeepsOrder(a, bc, b + c, x.id, y.id);
    }
  }

  lemma HasLast(ms: seq<Message>, m: Message)
    requires LastOfItsId(ms, m)
    ensures Has(ms, m.id)
  {
  }

  /** A copy that moves into a tie, or out of one, makes the order of merging matter. */
  lemma MovedCopyBreaksAssociativity(collate: (string, string) -> bool, x: Message, x': Message, y: Message)
    returns (a: seq<Message>, c: seq<Message>)
    requires TotalPreorder(ByCreatedAt(collate)) && Moves(collate, x, x', y)
    ensures c == [x'] && (a == [x, y] || a == [y, x])
    ensures Merged(Merged(a, [], collate), c, collate) != Merged(a, Merged([], c, collate), collate)
  {
    a, c := if collate(x.createdAt, y.createdAt) then [y, x] else [x, y], [x'];
    var ab, bc := Merged(a, [], collate), Merged([], c, collate);
    LastOfThree(x, x', y, a);
    BothHold(a, [], c, collate, x');
    BothHold(a, [], c, collate, y);
    MergedHolds(a, [], collate, x);
    MergedHolds(a, [], collate, y);
    MergedHolds([], c, collate, x');
    hide Merged, LastOfItsId;
    NoneThen(a);
    NoneThen(c);
    MergeOrder(a, [], collate, x, y);
    MergeOrder(ab, c, collate, x', y);
    MergeOrder(a, bc, collate, x', y);
    IndexOfMember(ab, x);
    IndexOfMember(ab, y);
    IndexInConcat(ab, c, x.id);
    IndexInConcat(ab, c, y.id);
    IndexInConcat(a, bc, x.id);
    IndexInConcat(a, bc, y.id);
  }

  lemma LastAt(ms: seq<Message>, k: nat)
    requires k < |ms| && Identified(ms[k]) && forall j | k < j < |ms| :: ms[j].id != ms[k].id
    ensures LastOfItsId(ms, ms[k])
  {
  }

  lemma LastOfThree(x: Message, x': Message, y: Message, a: seq<Message>)
    requires Identified(x) && Identified(y) && x.id == x'.id != y.id && (a == [x, y] || a == [y, x])
    ensures LastOfItsId(a, x) && LastOfItsId(a, y) && LastOfItsId([x'], x')
    ensures LastOfItsId(a + [] + [x'], x') && LastOfItsId(a + [] + [x'], y)
    ensures IndexOf(a, x.id) == (if a == [x, y] then 0 else 1) && IndexOf(a, y.id) == (if a == [x, y] then 1 else 0)
  {
    var i := if a == [x, y] then 0 else 1;
    assert a[i] == x && a[1 - i] == y;
    var all := a + [] + [x'];
    assert all == [a[0], a[1], x'];
    assert all[2] == x' && all[1 - i] == y;
    hide LastOfItsId, IndexOf;
    LastAt(a, i);
    LastAt(a, 1 - i);
    LastAt([x'], 0);
    LastAt(all, 2);
    LastAt(all, 1 - i);
    IndexIs(a, x.id, i);
    IndexIs(a, y.id, 1 - i);
  }

  /** The exact condition: merging is associative on all lists drawn from some messages iff no copy of an id among them
      stands apart from a message of another id with which another copy ties. */
  lemma MergeIsAssociativeIff(p: iset<Message>, collate: (string, string) -> bool)
    requires TotalPreorder(ByCreatedAt(collate))
    ensures AssociativeOn(p, collate) <==> !SomeCopyMoves(p, collate)
  {
    if !SomeCopyMoves(p, collate) {
      forall a, b, c | DrawnFrom(p, a) && DrawnFrom(p, b) && DrawnFrom(p, c)
        ensures Merged(Merged(a, b, collate), c, collate) == Merged(a, Merged(b, c, collate), collate)
      {
        AssociativeWhereNoCopyMoves(p, a, b, c, collate);
      }
    } else {
      var x, x', y :| x in p && x' in p && y in p && Moves(collate, x, x', y);
      var a, c := MovedCopyBreaksAssociativity(collate, x, x', y);
      hide Merged;
      assert DrawnFrom(p, a) && DrawnFrom(p, []) && DrawnFrom(p, c);
    }
  }

  // Every two messages with the same id carry the same createdAt.
  ghost predicate StampedById(stamp: string -> string, ms: seq<Message>) {
    forall m | m in ms && Identified(m) :: m.createdAt == stamp(m.id.value)
  }

  /** As lists, merges are associative when an id fixes createdAt. */
  lemma MergeIsAssociative(
      stamp: string -> string, a: seq<Message>, b: seq<Message>, c: seq<Message>, collate: (string, string) -> bool)
    requires TotalPreorder(ByCreatedAt(collate))
    requires StampedById(stamp, a) && StampedById(stamp, b) && StampedById(stamp, c)
    ensures Merged(Merged(a, b, collate), c, collate) == Merged(a, Merged(b, c, collate), collate)
  {
    var p := iset m: Message | m in a || m in b || m in c;
    hide Merged;
    AssociativeWhereNoCopyMoves(p, a, b, c, collate);
  }
}
