/** The cache key of connector options (connectorOptionCacheKey in apps/browser-demo/src/connectorOptionProviders.ts):
    what it does not depend on, and which forms share one. */
module ConnectorOptionKeys {
  import opened Sequences
  import opened StableSort
  import Text
  import opened Wrappers

  // ---- The cache key -------------------------------------------------------------------------------------

  // Array.prototype.sort without a comparator: by character codes.
  predicate LexLe(a: string, b: string) {
    a == "" || (b != "" && (a[0] < b[0] || (a[0] == b[0] && LexLe(a[1..], b[1..]))))
  }

  function LexOrder(): (string, string) -> bool {
    (a: string, b: string) => LexLe(a, b)
  }

  // `fieldValues[id] ?? ''`
  function ValueOf(fieldValues: map<string, string>, id: string): string {
    if id in fieldValues then fieldValues[id] else ""
  }

  function DependencyKey(ids: seq<string>, fieldValues: map<string, string>): string {
    if ids == [] then ""
    else
      ids[0] + "=" + ValueOf(fieldValues, ids[0])
      + if |ids| == 1 then "" else "|" + DependencyKey(ids[1..], fieldValues)
  }

  function CacheKey(providerId: string, dependsOn: seq<string>, fieldValues: map<string, string>, wallet: Option<string>,
                    cluster: string): string {
    providerId + "::" + DependencyKey(Sort(dependsOn, LexOrder()), fieldValues) + "::" + wallet.GetOr("") + "::" + cluster
  }

  lemma {:induction false} LexIsTotal(a: string, b: string)
    ensures LexLe(a, b) || LexLe(b, a)
    ensures LexLe(a, b) && LexLe(b, a) ==> a == b
  {
    if a != "" && b != "" {
      LexIsTotal(a[1..], b[1..]);
      assert a == [a[0]] + a[1..] && b == [b[0]] + b[1..];
    }
  }

  lemma {:induction false} LexIsTransitive(a: string, b: string, c: string)
    requires LexLe(a, b) && LexLe(b, c)
    ensures LexLe(a, c)
  {
    if a != "" && a[0] == b[0] == c[0] {
      LexIsTransitive(a[1..], b[1..], c[1..]);
    }
  }

  lemma LexIsAnOrder()
    ensures TotalPreorder(LexOrder())
    ensures forall a, b | LexOrder()(a, b) && LexOrder()(b, a) :: a == b
  {
    forall a, b ensures LexOrder()(a, b) || LexOrder()(b, a)
      ensures LexOrder()(a, b) && LexOrder()(b, a) ==> a == b
    {
      LexIsTotal(a, b);
    }
    forall a, b, c | LexOrder()(a, b) && LexOrder()(b, c) ensures LexOrder()(a, c) {
      LexIsTransitive(a, b, c);
    }
  }

  /** The order in which a form lists its dependencies makes no difference. */
  lemma KeyIgnoresOrder(providerId: string, dependsOn: seq<string>, others: seq<string>, fieldValues: map<string, string>,
                        wallet: Option<string>, cluster: string)
    requires multiset(dependsOn) == multiset(others)
    ensures CacheKey(providerId, dependsOn, fieldValues, wallet, cluster)
      == CacheKey(providerId, others, fieldValues, wallet, cluster)
  {
    LexIsAnOrder();
    hide LexOrder;
    SortPermutes(dependsOn, LexOrder());
    SortPermutes(others, LexOrder());
    SortSorts(dependsOn, LexOrder());
    SortSorts(others, LexOrder());
    SortedIsUnique(Sort(dependsOn, LexOrder()), Sort(others, LexOrder()), LexOrder());
  }

  predicate NoBars(ids: seq<string>, fieldValues: map<string, string>) {
    forall id | id in ids :: '|' !in ValueOf(fieldValues, id)
  }

  lemma {:induction false} DependencyKeySeparates(ids: seq<string>, f: map<string, string>, g: map<string, string>)
    requires NoBars(ids, f) && NoBars(ids, g) && DependencyKey(ids, f) == DependencyKey(ids, g)
    ensures forall id | id in ids :: ValueOf(f, id) == ValueOf(g, id)
  {
    if ids != [] {
      assert ids[0] in ids;
      var prefix, v, w := ids[0] + "=", ValueOf(f, ids[0]), ValueOf(g, ids[0]);
      if |ids| == 1 {
        NoneThen(prefix + v);
        NoneThen(prefix + w);
        SamePrefix(prefix, v, w);
      } else {
        var x, y := DependencyKey(ids[1..], f), DependencyKey(ids[1..], g);
        DependencyKeyFirst(ids, f);
        DependencyKeyFirst(ids, g);
        hide DependencyKey, ValueOf;
        SamePrefix(prefix, v + ['|'] + x, w + ['|'] + y);
        Text.SplitsAtFirst('|', v, x, w, y);
        DependencyKeySeparates(ids[1..], f, g);
        FirstThenRest(ids);
      }
    }
  }

  lemma DependencyKeyFirst(ids: seq<string>, f: map<string, string>)
    requires |ids| > 1
    ensures DependencyKey(ids, f) == (ids[0] + "=") + (ValueOf(f, ids[0]) + ['|'] + DependencyKey(ids[1..], f))
  {
    var head, v, rest := ids[0] + "=", ValueOf(f, ids[0]), DependencyKey(ids[1..], f);
    assert DependencyKey(ids, f) == head + v + ("|" + rest);
    hide DependencyKey, ValueOf;
    Assoc(head, v, "|" + rest);
    Assoc(v, "|", rest);
  }

  lemma KeyEndsApart(head: string, wallet: string, cluster: string, head': string, wallet': string, cluster': string)
    requires head + "::" + wallet + "::" + cluster == head' + "::" + wallet' + "::" + cluster'
    requires ':' !in wallet + cluster + wallet' + cluster'
    ensures head == head' && wallet == wallet' && cluster == cluster'
  {
    var a, a' := head + "::" + wallet + ":", head' + "::" + wallet' + ":";
    assert head + "::" + wallet + "::" + cluster == a + [':'] + cluster;
    assert head' + "::" + wallet' + "::" + cluster' == a' + [':'] + cluster';
    assert ':' !in cluster && ':' !in cluster' && ':' !in wallet && ':' !in wallet';
    Text.SplitsAtLast(':', a, cluster, a', cluster');
    var b, b' := head + ":", head' + ":";
    assert b + [':'] + wallet == a[..|a| - 1] && b' + [':'] + wallet' == a'[..|a'| - 1];
    Text.SplitsAtLast(':', b, wallet, b', wallet');
    assert head == b[..|b| - 1] && head' == b'[..|b'| - 1];
  }

  /** For one provider and one list of dependencies, equal keys mean equal wallet, cluster and values. */
  lemma KeySeparates(providerId: string, dependsOn: seq<string>, f: map<string, string>, wallet: Option<string>,
                     cluster: string, g: map<string, string>, wallet': Option<string>, cluster': string)
    requires NoBars(dependsOn, f) && NoBars(dependsOn, g)
    requires ':' !in wallet.GetOr("") + cluster + wallet'.GetOr("") + cluster'
    requires CacheKey(providerId, dependsOn, f, wallet, cluster) == CacheKey(providerId, dependsOn, g, wallet', cluster')
    ensures wallet.GetOr("") == wallet'.GetOr("") && cluster == cluster'
    ensures forall id | id in dependsOn :: ValueOf(f, id) == ValueOf(g, id)
  {
    var ids := Sort(dependsOn, LexOrder());
    SortPermutes(dependsOn, LexOrder());
    var start := providerId + "::";
    var x, y := DependencyKey(ids, f), DependencyKey(ids, g);
    hide DependencyKey;
    KeyEndsApart(start + x, wallet.GetOr(""), cluster, start + y, wallet'.GetOr(""), cluster');
    assert (start + x)[|start|..] == x && (start + y)[|start|..] == y;
    DependencyKeySeparates(ids, f, g);
  }

  /** Different providers never share a key, whatever the forms: no provider's id holds a colon. */
  lemma ProvidersAreApart(providerId: string, dependsOn: seq<string>, f: map<string, string>, wallet: Option<string>,
                          cluster: string, providerId': string, dependsOn': seq<string>, g: map<string, string>,
                          wallet': Option<string>, cluster': string)
    requires ':' !in providerId && ':' !in providerId'
    requires CacheKey(providerId, dependsOn, f, wallet, cluster) == CacheKey(providerId', dependsOn', g, wallet', cluster')
    ensures providerId == providerId'
  {
    var x, y := DependencyKey(Sort(dependsOn, LexOrder()), f), DependencyKey(Sort(dependsOn', LexOrder()), g);
    hide DependencyKey, Sort;
    ProviderFirst(providerId, x, wallet.GetOr(""), cluster);
    ProviderFirst(providerId', y, wallet'.GetOr(""), cluster');
    var rest, rest' := ":" + x + "::" + wallet.GetOr("") + "::" + cluster, ":" + y + "::" + wallet'.GetOr("") + "::" + cluster';
    Text.SplitsAtFirst(':', providerId, rest, providerId', rest');
  }

  lemma ProviderFirst(providerId: string, x: string, wallet: string, cluster: string)
    ensures providerId + "::" + x + "::" + wallet + "::" + cluster
      == providerId + [':'] + (":" + x + "::" + wallet + "::" + cluster)
  {
  }

  // ---- Separators in values -------------------------------------------------------------------------------

  predicate HoldsAt(part: string, s: string, i: int) {
    0 <= i && i + |part| <= |s| && s[i..i + |part|] == part
  }

  ghost predicate Holds(part: string, s: string) {
    exists i :: HoldsAt(part, s, i)
  }

  // Values with separators between them.
  function Joined(vs: seq<string>, seps: seq<string>): string
    requires |vs| == |seps| + 1
  {
    if seps == [] then vs[0] else vs[0] + seps[0] + Joined(vs[1..], seps[1..])
  }

  predicate BarLed(sep: string) {
    sep != "" && sep[0] == '|' && forall i | 0 < i < |sep| :: sep[i] != '|'
  }

  predicate AllBarLed(seps: seq<string>) {
    forall k | 0 <= k < |seps| :: BarLed(seps[k])
  }

  ghost predicate HitAt(vs: seq<string>, seps: seq<string>, k: nat)
    requires |vs| == |seps| + 1
  {
    k < |seps| && (Holds(seps[k], vs[k]) || Holds(seps[k], vs[k + 1]))
  }

  // A separator stands in the value before it or in the value after it.
  ghost predicate Hit(vs: seq<string>, seps: seq<string>)
    requires |vs| == |seps| + 1
  {
    exists k: nat :: HitAt(vs, seps, k)
  }

  lemma HitInRest(vs: seq<string>, seps: seq<string>)
    requires |vs| == |seps| + 1 && seps != [] && Hit(vs[1..], seps[1..])
    ensures Hit(vs, seps)
  {
    hide Holds;
    var k: nat :| HitAt(vs[1..], seps[1..], k);
    assert HitAt(vs, seps, k + 1);
  }

  // Of two separators in one text the first ends before the second starts.
  lemma SeparatorsApart(p: string, sep: string, rest: string, q: string, sep': string, rest': string)
    requires p + sep + rest == q + sep' + rest' && BarLed(sep) && BarLed(sep') && |p| < |q|
    ensures |p| + |sep| <= |q|
  {
    var t := p + sep + rest;
    assert t[|q|] == sep'[0] by {
      assert t == q + sep' + rest';
    }
    forall i | |p| < i < |p| + |sep| ensures t[i] != '|' {
      assert t[i] == sep[i - |p|];
    }
  }

  // The longer of two beginnings of a text holds what follows the shorter one.
  lemma CutAt(p: string, sep: string, rest: string, q: string, more: string)
    requires p + sep + rest == q + more && |p| + |sep| <= |q|
    ensures HoldsAt(sep, q, |p|) && rest == q[|p| + |sep|..] + more
  {
    var t := p + sep + rest;
    assert t[..|q|] == q by {
      assert t == q + more;
    }
    assert q[|p|..|p| + |sep|] == t[|p|..|p| + |sep|] == sep;
    assert rest == t[|p| + |sep|..];
    assert t[|p| + |sep|..] == (q + more)[|p| + |sep|..];
  }

  // Two readings of a text of which the second has the separator before the values only later.
  lemma {:induction false} LateReading(sep: string, x: string, vs: seq<string>, ws: seq<string>, seps: seq<string>)
    requires |vs| == |ws| == |seps| + 1 && BarLed(sep) && AllBarLed(seps)
    requires Joined(vs, seps) == x + sep + Joined(ws, seps)
    ensures Holds(sep, vs[0]) || Hit(vs, seps)
    decreases |seps|
  {
    if seps == [] {
      HoldsInside(x, sep, ws[0]);
    } else {
      var v, w, next := vs[0], ws[0], seps[0];
      var r, r' := Joined(vs[1..], seps[1..]), Joined(ws[1..], seps[1..]);
      hide Joined, Holds, Hit, BarLed;
      Regrouped(x, sep, w, next, r');
      assert v + next + r == x + sep + (w + next + r');
      if |x| + |sep| <= |v| {
        Assoc(v, next, r);
        CutAt(x, sep, w + next + r', v, next + r);
        HoldsSome(sep, v, |x|);
      } else {
        var y := x + sep + w;
        SeparatorsApart(v, next, r, y, next, r');
        Assoc(y, next, r');
        CutAt(v, next, r, y, next + r');
        var x' := y[|v| + |next|..];
        Assoc(x', next, r');
        LateReading(next, x', vs[1..], ws[1..], seps[1..]);
        LaterHit(vs, seps);
      }
    }
  }

  lemma HoldsSome(part: string, s: string, i: int)
    requires HoldsAt(part, s, i)
    ensures Holds(part, s)
  {
  }

  lemma HoldsInside(x: string, part: string, y: string)
    ensures Holds(part, x + part + y)
  {
    assert HoldsAt(part, x + part + y, |x|);
  }

  lemma Regrouped(x: string, sep: string, w: string, next: string, rest: string)
    ensures x + sep + (w + next + rest) == (x + sep + w) + next + rest
  {
  }

  lemma LaterHit(vs: seq<string>, seps: seq<string>)
    requires |vs| == |seps| + 1 && seps != [] && (Holds(seps[0], vs[1..][0]) || Hit(vs[1..], seps[1..]))
    ensures Hit(vs, seps)
  {
    if Holds(seps[0], vs[1..][0]) {
      assert HitAt(vs, seps, 0);
    } else {
      HitInRest(vs, seps);
    }
  }

  /** A text that can be read as other values holds a separator in a value next to it. */
  lemma {:induction false} OtherReading(vs: seq<string>, ws: seq<string>, seps: seq<string>)
    requires |vs| == |ws| == |seps| + 1 && AllBarLed(seps)
    requires vs != ws && Joined(vs, seps) == Joined(ws, seps)
    ensures Hit(vs, seps)
    decreases |seps|
  {
    OneValue(vs, ws);
    if seps == [] {
      assert false;
    }
    var v, w, next := vs[0], ws[0], seps[0];
    var r, r' := Joined(vs[1..], seps[1..]), Joined(ws[1..], seps[1..]);
    assert v + next + r == w + next + r';
    hide Joined, Holds, Hit, BarLed;
    if |v| == |w| {
      SameLength(v, next, r, w, r');
      OtherReading(vs[1..], ws[1..], seps[1..]);
      HitInRest(vs, seps);
    } else if |w| < |v| {
      SeparatorsApart(w, next, r', v, next, r);
      Assoc(v, next, r);
      CutAt(w, next, r', v, next + r);
      HoldsSome(next, v, |w|);
      FirstHit(vs, seps);
    } else {
      SeparatorsApart(v, next, r, w, next, r');
      Assoc(w, next, r');
      CutAt(v, next, r, w, next + r');
      var x := w[|v| + |next|..];
      Assoc(x, next, r');
      LateReading(next, x, vs[1..], ws[1..], seps[1..]);
      LaterHit(vs, seps);
    }
  }

  lemma OneValue(vs: seq<string>, ws: seq<string>)
    requires |vs| == |ws| > 0
    ensures vs[0] == ws[0] && (|vs| == 1 || vs[1..] == ws[1..]) ==> vs == ws
  {
    FirstThenRest(vs);
    FirstThenRest(ws);
  }

  lemma FirstHit(vs: seq<string>, seps: seq<string>)
    requires |vs| == |seps| + 1 && seps != [] && Holds(seps[0], vs[0])
    ensures Hit(vs, seps)
  {
    assert HitAt(vs, seps, 0);
  }

  lemma SameLength(v: string, sep: string, r: string, w: string, r': string)
    requires v + sep + r == w + sep + r' && |v| == |w|
    ensures v == w && r == r'
  {
    var t := v + sep + r;
    assert v == t[..|v|] && r == t[|v| + |sep|..];
    assert w == (w + sep + r')[..|w|] && r' == (w + sep + r')[|w| + |sep|..];
  }

  // The other reading of two values with a separator between them.
  lemma Reread(sep: string, v: string, w: string) returns (v': string, w': string)
    requires (Holds(sep, v) || Holds(sep, w)) && sep != ""
    ensures v + sep + w == v' + sep + w' && v' != v
  {
    if Holds(sep, v) {
      var i :| HoldsAt(sep, v, i);
      CutOut(sep, v, i);
      v', w' := v[..i], v[i + |sep|..] + sep + w;
      Regroup(v', sep, v[i + |sep|..], w);
    } else {
      var i :| HoldsAt(sep, w, i);
      CutOut(sep, w, i);
      v', w' := v + sep + w[..i], w[i + |sep|..];
      Regroup(v, sep, w[..i], w');
    }
  }

  lemma CutOut(sep: string, v: string, i: int)
    requires HoldsAt(sep, v, i)
    ensures 0 <= i && i + |sep| <= |v| && v == v[..i] + sep + v[i + |sep|..]
  {
  }

  lemma Regroup(a: string, sep: string, b: string, c: string)
    ensures (a + sep + b) + sep + c == a + sep + (b + sep + c)
  {
  }

  function AfterFirst(vs: seq<string>, seps: seq<string>): string
    requires |vs| == |seps| + 1
  {
    if seps == [] then "" else seps[0] + Joined(vs[1..], seps[1..])
  }

  lemma JoinedFirst(v: string, vs: seq<string>, seps: seq<string>)
    requires |vs| == |seps| + 1
    ensures Joined([v] + vs[1..], seps) == v + AfterFirst(vs, seps)
    ensures Joined(vs, seps) == vs[0] + AfterFirst(vs, seps)
  {
    assert ([v] + vs[1..])[1..] == vs[1..];
    NoneThen(v);
    NoneThen(vs[0]);
  }

  lemma {:induction false} Rereads(vs: seq<string>, seps: seq<string>, k: nat) returns (ws: seq<string>)
    requires |vs| == |seps| + 1 && AllBarLed(seps) && HitAt(vs, seps, k)
    ensures |ws| == |vs| && ws != vs && Joined(ws, seps) == Joined(vs, seps)
    decreases |seps|
  {
    var rest, more := vs[1..], seps[1..];
    if k == 0 {
      assert BarLed(seps[0]);
      var v, w := Reread(seps[0], vs[0], vs[1]);
      ws := [v, w] + vs[2..];
      var tail := AfterFirst(rest, more);
      JoinedFirst(w, rest, more);
      assert ws[1..] == [w] + rest[1..] && ws[0] == v;
      assert Joined(ws, seps) == v + seps[0] + (w + tail);
      assert Joined(vs, seps) == vs[0] + seps[0] + (vs[1] + tail);
      SameTails(v, seps[0], w, vs[0], vs[1], tail);
    } else {
      assert HitAt(rest, more, k - 1);
      var found := Rereads(rest, more, k - 1);
      ws := [vs[0]] + found;
      assert ws[1..] == found && ws[0] == vs[0];
    }
  }

  lemma SameTails(v: string, sep: string, w: string, v': string, w': string, tail: string)
    requires v + sep + w == v' + sep + w'
    ensures v + sep + (w + tail) == v' + sep + (w' + tail)
  {
    assert v + sep + (w + tail) == (v + sep + w) + tail;
    assert v' + sep + (w' + tail) == (v' + sep + w') + tail;
  }

  // ---- Which forms share a key ------------------------------------------------------------------------------

  // What stands between the value of one dependency and the value of the next, `id`.
  function Before(id: string): string {
    "|" + id + "="
  }

  function Values(ids: seq<string>, f: map<string, string>): (vs: seq<string>)
    ensures |vs| == |ids| && forall k | 0 <= k < |ids| :: vs[k] == ValueOf(f, ids[k])
  {
    seq(|ids|, k requires 0 <= k < |ids| => ValueOf(f, ids[k]))
  }

  function Separators(ids: seq<string>): (seps: seq<string>)
    requires ids != []
    ensures |seps| == |ids| - 1 && forall k | 0 <= k < |seps| :: seps[k] == Before(ids[k + 1])
  {
    seq(|ids| - 1, k requires 0 <= k < |ids| - 1 => Before(ids[k + 1]))
  }

  lemma {:induction false} KeyIsJoined(ids: seq<string>, f: map<string, string>)
    requires ids != []
    ensures DependencyKey(ids, f) == (ids[0] + "=") + Joined(Values(ids, f), Separators(ids))
  {
    if |ids| == 1 {
      NoneThen(ids[0] + "=" + ValueOf(f, ids[0]));
    } else {
      var rest := ids[1..];
      KeyIsJoined(rest, f);
      DependencyKeyFirst(ids, f);
      assert Values(ids, f)[1..] == Values(rest, f) && Separators(ids)[1..] == Separators(rest);
      BeforeThen(ValueOf(f, ids[0]), ids[1], Joined(Values(rest, f), Separators(rest)));
    }
  }

  lemma BeforeThen(v: string, id: string, w: string)
    ensures v + ['|'] + ((id + "=") + w) == v + Before(id) + w
  {
  }

  lemma SameAround(start: string, x: string, y: string, end: string)
    ensures start + x + end == start + y + end <==> x == y
  {
    if start + x + end == start + y + end {
      assert |x| == |y|;
      assert x == (start + x + end)[|start|..|start| + |x|] && y == (start + y + end)[|start|..|start| + |y|];
    }
  }

  lemma KeyAround(providerId: string, dependsOn: seq<string>, f: map<string, string>, wallet: Option<string>, cluster: string)
    ensures CacheKey(providerId, dependsOn, f, wallet, cluster)
      == (providerId + "::") + DependencyKey(Sort(dependsOn, LexOrder()), f) + ("::" + wallet.GetOr("") + "::" + cluster)
  {
    hide DependencyKey, Sort;
    var head := providerId + "::" + DependencyKey(Sort(dependsOn, LexOrder()), f);
    Assoc(head, "::", wallet.GetOr(""));
    Assoc(head, "::" + wallet.GetOr(""), "::");
    Assoc(head, "::" + wallet.GetOr("") + "::", cluster);
  }

  lemma SameCacheKey(providerId: string, dependsOn: seq<string>, f: map<string, string>, g: map<string, string>,
                     wallet: Option<string>, cluster: string)
    ensures CacheKey(providerId, dependsOn, f, wallet, cluster) == CacheKey(providerId, dependsOn, g, wallet, cluster)
      <==> DependencyKey(Sort(dependsOn, LexOrder()), f) == DependencyKey(Sort(dependsOn, LexOrder()), g)
  {
    hide DependencyKey, Sort, CacheKey;
    KeyAround(providerId, dependsOn, f, wallet, cluster);
    KeyAround(providerId, dependsOn, g, wallet, cluster);
    SameAround(providerId + "::", DependencyKey(Sort(dependsOn, LexOrder()), f),
               DependencyKey(Sort(dependsOn, LexOrder()), g), "::" + wallet.GetOr("") + "::" + cluster);
  }

  lemma SameDependencyKey(ids: seq<string>, f: map<string, string>, g: map<string, string>)
    requires ids != []
    ensures DependencyKey(ids, f) == DependencyKey(ids, g)
      <==> Joined(Values(ids, f), Separators(ids)) == Joined(Values(ids, g), Separators(ids))
  {
    hide DependencyKey, Joined;
    KeyIsJoined(ids, f);
    KeyIsJoined(ids, g);
    var start, x, y := ids[0] + "=", Joined(Values(ids, f), Separators(ids)), Joined(Values(ids, g), Separators(ids));
    if start + x == start + y {
      SamePrefix(start, x, y);
    }
  }

  predicate NoBarIn(ids: seq<string>) {
    forall id | id in ids :: '|' !in id
  }

  lemma SeparatorsAreBarLed(ids: seq<string>)
    requires ids != [] && NoBarIn(ids)
    ensures AllBarLed(Separators(ids))
  {
    forall k | 0 <= k < |ids| - 1 ensures BarLed(Separators(ids)[k]) {
      assert ids[k + 1] in ids;
      OneBar(ids[k + 1]);
    }
  }

  lemma OneBar(id: string)
    requires '|' !in id
    ensures BarLed(Before(id))
  {
    var sep := Before(id);
    forall i | 0 < i < |sep| ensures sep[i] != '|' {
      if i <= |id| {
        assert sep[i] == id[i - 1];
      }
    }
  }

  ghost predicate AmbiguousAt(ids: seq<string>, f: map<string, string>, k: int) {
    0 < k < |ids| && (Holds(Before(ids[k]), ValueOf(f, ids[k - 1])) || Holds(Before(ids[k]), ValueOf(f, ids[k])))
  }

  // Some dependency but the first has a bar, its id and an equals sign in its own value or in the one before it.
  ghost predicate Ambiguous(ids: seq<string>, f: map<string, string>) {
    exists k :: AmbiguousAt(ids, f, k)
  }

  lemma AmbiguousIsHit(ids: seq<string>, f: map<string, string>)
    requires ids != []
    ensures Ambiguous(ids, f) <==> Hit(Values(ids, f), Separators(ids))
  {
    hide Holds;
    if Ambiguous(ids, f) {
      var k :| AmbiguousAt(ids, f, k);
      assert HitAt(Values(ids, f), Separators(ids), k - 1);
    }
    if Hit(Values(ids, f), Separators(ids)) {
      var k: nat :| HitAt(Values(ids, f), Separators(ids), k);
      assert AmbiguousAt(ids, f, k + 1);
    }
  }

  predicate Distinct(ids: seq<string>) {
    forall i, j | 0 <= i < j < |ids| :: ids[i] != ids[j]
  }

  lemma {:induction false} CountOnce(xs: seq<string>, x: string)
    requires Distinct(xs)
    ensures multiset(xs)[x] <= 1
  {
    if xs != [] {
      CountOnce(xs[1..], x);
      FirstThenRest(xs);
      assert xs[0] !in xs[1..];
    }
  }

  lemma CountTwice(xs: seq<string>, i: nat, j: nat)
    requires i < j < |xs| && xs[i] == xs[j]
    ensures multiset(xs)[xs[i]] >= 2
  {
    assert xs == xs[..j] + [xs[j]] + xs[j + 1..];
    assert xs[..j][i] == xs[i];
    assert xs[i] in multiset(xs[..j]);
  }

  lemma DistinctSorted(ids: seq<string>)
    requires Distinct(ids)
    ensures Distinct(Sort(ids, LexOrder()))
  {
    var sorted := Sort(ids, LexOrder());
    SortPermutes(ids, LexOrder());
    hide Sort, LexOrder;
    forall i, j | 0 <= i < j < |sorted| ensures sorted[i] != sorted[j] {
      CountOnce(ids, sorted[i]);
      if sorted[i] == sorted[j] {
        CountTwice(sorted, i, j);
        assert false;
      }
    }
  }

  function PlaceOf(ids: seq<string>, id: string): (k: nat)
    ensures k <= |ids| && (k < |ids| ==> ids[k] == id)
    ensures forall i | 0 <= i < k :: ids[i] != id
  {
    if ids == [] || ids[0] == id then 0 else 1 + PlaceOf(ids[1..], id)
  }

  lemma FormOf(ids: seq<string>, vs: seq<string>) returns (f: map<string, string>)
    requires Distinct(ids) && |vs| == |ids|
    ensures Values(ids, f) == vs
  {
    f := map id | id in ids && PlaceOf(ids, id) < |ids| :: vs[PlaceOf(ids, id)];
    forall k | 0 <= k < |ids| ensures ValueOf(f, ids[k]) == vs[k] {
      assert ids[k] in ids && PlaceOf(ids, ids[k]) == k;
    }
  }

  // Forms with different values of the dependencies but one key.
  ghost predicate SharesKey(providerId: string, dependsOn: seq<string>, f: map<string, string>, g: map<string, string>,
                            wallet: Option<string>, cluster: string) {
    && (exists id | id in dependsOn :: ValueOf(f, id) != ValueOf(g, id))
    && CacheKey(providerId, dependsOn, f, wallet, cluster) == CacheKey(providerId, dependsOn, g, wallet, cluster)
  }

  lemma DifferentValues(dependsOn: seq<string>, ids: seq<string>, f: map<string, string>, g: map<string, string>)
    requires forall id :: id in dependsOn <==> id in ids
    ensures (exists id | id in dependsOn :: ValueOf(f, id) != ValueOf(g, id)) <==> Values(ids, f) != Values(ids, g)
  {
    if id :| id in dependsOn && ValueOf(f, id) != ValueOf(g, id) {
      assert id in ids;
      var k :| 0 <= k < |ids| && ids[k] == id;
      assert Values(ids, f)[k] != Values(ids, g)[k];
    }
    if Values(ids, f) != Values(ids, g) {
      var k :| 0 <= k < |ids| && Values(ids, f)[k] != Values(ids, g)[k];
      assert ids[k] in ids && ValueOf(f, ids[k]) != ValueOf(g, ids[k]);
    }
  }

  lemma SameKeySameValues(ids: seq<string>, f: map<string, string>, g: map<string, string>)
    requires (|ids| > 1 ==> NoBarIn(ids)) && !Ambiguous(ids, f) && DependencyKey(ids, f) == DependencyKey(ids, g)
    ensures Values(ids, f) == Values(ids, g)
  {
    if ids != [] {
      if |ids| > 1 {
        SeparatorsAreBarLed(ids);
      }
      SameDependencyKey(ids, f, g);
      AmbiguousIsHit(ids, f);
      hide DependencyKey, Joined, Hit, Ambiguous, Separators, NoBarIn;
      if Values(ids, f) != Values(ids, g) {
        OtherReading(Values(ids, f), Values(ids, g), Separators(ids));
        assert false;
      }
    }
  }

  /** The exact condition, for any list of dependencies: other values give the same key if and only if, in the order of
      the key, some dependency but the first has a bar, its id and an equals sign in its own value or in the one before
      it. */
  lemma KeyIsSharedIff(providerId: string, dependsOn: seq<string>, f: map<string, string>, wallet: Option<string>,
                       cluster: string)
    requires Distinct(dependsOn) && NoBarIn(dependsOn)
    ensures (exists g :: SharesKey(providerId, dependsOn, f, g, wallet, cluster))
      <==> Ambiguous(Sort(dependsOn, LexOrder()), f)
  {
    var ids := Sort(dependsOn, LexOrder());
    SortPermutes(dependsOn, LexOrder());
    DistinctSorted(dependsOn);
    assert NoBarIn(ids);
    hide CacheKey, DependencyKey, Sort, LexOrder, NoBarIn, Distinct;
    if g :| SharesKey(providerId, dependsOn, f, g, wallet, cluster) {
      SameCacheKey(providerId, dependsOn, f, g, wallet, cluster);
      DifferentValues(dependsOn, ids, f, g);
      if !Ambiguous(ids, f) {
        SameKeySameValues(ids, f, g);
        assert false;
      }
    }
    if Ambiguous(ids, f) {
      var g := AmbiguousTwin(ids, f);
      DifferentValues(dependsOn, ids, f, g);
      SameCacheKey(providerId, dependsOn, f, g, wallet, cluster);
      assert SharesKey(providerId, dependsOn, f, g, wallet, cluster);
    }
  }

  lemma AmbiguousTwin(ids: seq<string>, f: map<string, string>) returns (g: map<string, string>)
    requires Distinct(ids) && NoBarIn(ids) && Ambiguous(ids, f)
    ensures Values(ids, f) != Values(ids, g) && DependencyKey(ids, f) == DependencyKey(ids, g)
  {
    assert ids != [];
    SeparatorsAreBarLed(ids);
    AmbiguousIsHit(ids, f);
    var vs, seps := Values(ids, f), Separators(ids);
    hide Ambiguous, DependencyKey, Joined, Separators, NoBarIn, AllBarLed;
    var k: nat :| HitAt(vs, seps, k);
    hide HitAt;
    var ws := Rereads(vs, seps, k);
    g := FormOf(ids, ws);
    SameDependencyKey(ids, f, g);
  }

  /** An unambiguous form has its key for itself, whatever the values of the other form. */
  lemma UnambiguousKeySeparates(providerId: string, dependsOn: seq<string>, f: map<string, string>, wallet: Option<string>,
                                cluster: string, g: map<string, string>, wallet': Option<string>, cluster': string)
    requires |dependsOn| > 1 ==> NoBarIn(dependsOn)
    requires !Ambiguous(Sort(dependsOn, LexOrder()), f)
    requires ':' !in wallet.GetOr("") + cluster + wallet'.GetOr("") + cluster'
    requires CacheKey(providerId, dependsOn, f, wallet, cluster) == CacheKey(providerId, dependsOn, g, wallet', cluster')
    ensures wallet.GetOr("") == wallet'.GetOr("") && cluster == cluster'
    ensures forall id | id in dependsOn :: ValueOf(f, id) == ValueOf(g, id)
  {
    var ids := Sort(dependsOn, LexOrder());
    SortPermutes(dependsOn, LexOrder());
    assert |ids| > 1 ==> NoBarIn(ids);
    var start := providerId + "::";
    var x, y := DependencyKey(ids, f), DependencyKey(ids, g);
    hide DependencyKey, NoBarIn, Ambiguous, Sort;
    KeyEndsApart(start + x, wallet.GetOr(""), cluster, start + y, wallet'.GetOr(""), cluster');
    SamePrefix(start, x, y);
    SameKeySameValues(ids, f, g);
    DifferentValues(dependsOn, ids, f, g);
  }

  /** With one dependency nothing in its value does harm. */
  lemma OneDependencySeparates(providerId: string, id: string, f: map<string, string>, wallet: Option<string>,
                               cluster: string, g: map<string, string>, wallet': Option<string>, cluster': string)
    requires ':' !in wallet.GetOr("") + cluster + wallet'.GetOr("") + cluster'
    ensures CacheKey(providerId, [id], f, wallet, cluster) == CacheKey(providerId, [id], g, wallet', cluster') <==>
      wallet.GetOr("") == wallet'.GetOr("") && cluster == cluster' && ValueOf(f, id) == ValueOf(g, id)
  {
    var ids := Sort([id], LexOrder());
    SortPermutes([id], LexOrder());
    OneSorted(id);
    if CacheKey(providerId, [id], f, wallet, cluster) == CacheKey(providerId, [id], g, wallet', cluster') {
      hide CacheKey, Sort;
      assert !Ambiguous(ids, f);
      UnambiguousKeySeparates(providerId, [id], f, wallet, cluster, g, wallet', cluster');
      assert id in [id];
    }
  }

  lemma OneSorted(id: string)
    ensures Sort([id], LexOrder()) == [id]
  {
    SortedIsFixed([id], LexOrder());
  }

  /** Two forms with one key. */
  lemma BarsCollide(providerId: string, wallet: Option<string>, cluster: string)
    ensures var f, g := map["a" := "1|b=2", "b" := "3"], map["a" := "1", "b" := "2|b=3"];
      && ValueOf(f, "a") != ValueOf(g, "a")
      && CacheKey(providerId, ["a", "b"], f, wallet, cluster) == CacheKey(providerId, ["a", "b"], g, wallet, cluster)
  {
    var f, g := map["a" := "1|b=2", "b" := "3"], map["a" := "1", "b" := "2|b=3"];
    assert "a" != "b" && LexLe("a", "b") by {
      assert "a"[0] < "b"[0];
    }
    assert |ValueOf(f, "a")| != |ValueOf(g, "a")|;
    assert "1|b=2" + Before("b") + "3" == "1" + Before("b") + "2|b=3";
    TwoValues("a", "b", f);
    TwoValues("a", "b", g);
    hide CacheKey, LexLe, DependencyKey, Before;
    SameCacheKey(providerId, ["a", "b"], f, g, wallet, cluster);
  }

  lemma TwoValues(a: string, b: string, f: map<string, string>)
    requires LexLe(a, b)
    ensures DependencyKey(Sort([a, b], LexOrder()), f) == (a + "=") + (ValueOf(f, a) + Before(b) + ValueOf(f, b))
  {
    SortedIsFixed([a, b], LexOrder());
    hide Sort, LexLe, DependencyKey, ValueOf, Before;
    KeyIsJoined([a, b], f);
    var vs, seps := Values([a, b], f), Separators([a, b]);
    assert vs == [ValueOf(f, a), ValueOf(f, b)] && seps == [Before(b)];
    assert vs[1..] == [ValueOf(f, b)] && seps[1..] == [];
  }
}
