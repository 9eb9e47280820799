/** Local skill installs (handlePublishSkillManifest, handleInstallSkill, handleSkillInstallAction and
    activeInstallCount in apps/browser-demo/vite.acpDevApi.ts). The Map of installs is the sequence of
    its records in insertion order. */
module SkillInstalls {
  import Sequences
  import opened StableSort
  import opened Wrappers

  datatype Manifest = Manifest(id: string, version: string, monetized: bool)

  // A manifest in the catalog.
  datatype Record = Record(manifest: Manifest, createdAt: int, updatedAt: int)

  datatype Status = Active | Paused | Revoked

  datatype Install = Install(id: string, wallet: string, skillId: string, version: string, status: Status, updatedAt: int)

  datatype Action = Pause | Resume | Uninstall

  // `wallet` is the caller's, `id` the new install's random id.
  datatype Event =
    | Publish(nowMs: int, manifest: Manifest)
    | InstallSkill(nowMs: int, wallet: string, skillId: string, manifestVersion: string, acceptMonetization: bool, id: string)
    | Act(nowMs: int, installId: string, action: Action)

  datatype Response = Ok(install: Install) | Refused(status: int, code: string)

  datatype State = State(catalog: map<string, Record>, installs: seq<Install>)

  const EMPTY := State(map[], [])

  predicate IsLive(install: Install) {
    install.status != Revoked
  }

  function Find(p: Install -> bool, installs: seq<Install>): (k: nat)
    ensures k <= |installs|
    ensures k < |installs| ==> p(installs[k])
    ensures forall i | 0 <= i < k :: !p(installs[i])
  {
    if installs == [] || p(installs[0]) then 0 else 1 + Find(p, installs[1..])
  }

  function HasId(id: string): Install -> bool {
    (install: Install) => install.id == id
  }

  function LiveFor(wallet: string, skillId: string): Install -> bool {
    (install: Install) => install.wallet == wallet && install.skillId == skillId && IsLive(install)
  }

  function LiveOf(skillId: string): Install -> bool {
    (install: Install) => install.skillId == skillId && IsLive(install)
  }

  // Map.set
  function Put(installs: seq<Install>, install: Install): seq<Install> {
    var k := Find(HasId(install.id), installs);
    if k < |installs| then installs[k := install] else installs + [install]
  }

  function InstallError(s: State, e: Event): Option<Response>
    requires e.InstallSkill?
  {
    if e.skillId !in s.catalog then Some(Refused(404, "skill_not_found"))
    else if s.catalog[e.skillId].manifest.version != e.manifestVersion then Some(Refused(400, "manifest_version_mismatch"))
    else if s.catalog[e.skillId].manifest.monetized && !e.acceptMonetization then Some(Refused(400, "monetization_required"))
    else if Find(LiveFor(e.wallet, e.skillId), s.installs) < |s.installs| then Some(Refused(409, "already_installed"))
    else None
  }

  predicate Installs(s: State, e: Event) {
    e.InstallSkill? && InstallError(s, e).None?
  }

  function NewInstall(s: State, e: Event): Install
    requires Installs(s, e)
  {
    var manifest := s.catalog[e.skillId].manifest;
    Install(e.id, e.wallet, manifest.id, manifest.version, Active, e.nowMs)
  }

  function StatusAfter(action: Action): Status {
    match action
    case Pause => Paused
    case Resume => Active
    case Uninstall => Revoked
  }

  // The install an action changes.
  predicate Acts(s: State, e: Event) {
    e.Act? && var k := Find(HasId(e.installId), s.installs); k < |s.installs| && IsLive(s.installs[k])
  }

  // The first publication of an id dates the record.
  function Published(catalog: map<string, Record>, nowMs: int, manifest: Manifest): Record {
    Record(manifest, if manifest.id in catalog then catalog[manifest.id].createdAt else nowMs, nowMs)
  }

  function Step(s: State, e: Event): State {
    if e.Publish? then s.(catalog := s.catalog[e.manifest.id := Published(s.catalog, e.nowMs, e.manifest)])
    else if Installs(s, e) then s.(installs := Put(s.installs, NewInstall(s, e)))
    else if Acts(s, e) then
      var k := Find(HasId(e.installId), s.installs);
      s.(installs := s.installs[k := s.installs[k].(status := StatusAfter(e.action), updatedAt := e.nowMs)])
    else s
  }

  function After(events: seq<Event>): State {
    if events == [] then EMPTY else Step(After(events[..|events| - 1]), events[|events| - 1])
  }

  function ActiveInstallCount(installs: seq<Install>, skillId: string): nat {
    |Filter(LiveOf(skillId), installs)|
  }

  // ---- The module's maps and the handlers that change them ------------------------------------------

  class LocalSkills {
    var catalog: map<string, Record>
    var installs: seq<Install>

    function Contents(): State
      reads this
    {
      State(catalog, installs)
    }

    constructor ()
      ensures Contents() == EMPTY
    {
      catalog, installs := map[], [];
    }

    method PublishSkillManifest(nowMs: int, manifest: Manifest) returns (status: int, record: Record)
      modifies this`catalog
      ensures Contents() == Step(old(Contents()), Publish(nowMs, manifest))
      ensures manifest.id in catalog && record == catalog[manifest.id]
      ensures status == if manifest.id in old(catalog) then 200 else 201
    {
      status := if manifest.id in catalog then 200 else 201;
      var createdAt := if manifest.id in catalog then catalog[manifest.id].createdAt else nowMs;
      record := Record(manifest, createdAt, nowMs);
      catalog := catalog[manifest.id := record];
    }

    method HandleInstallSkill(e: Event) returns (response: Response)
      requires e.InstallSkill?
      modifies this`installs
      ensures Contents() == Step(old(Contents()), e)
      ensures response == (if old(Installs(Contents(), e)) then Ok(old(NewInstall(Contents(), e)))
                           else old(InstallError(Contents(), e)).value)
    {
      if e.skillId !in catalog {
        return Refused(404, "skill_not_found");
      }
      var manifest := catalog[e.skillId].manifest;
      if manifest.version != e.manifestVersion {
        return Refused(400, "manifest_version_mismatch");
      }
      if manifest.monetized && !e.acceptMonetization {
        return Refused(400, "monetization_required");
      }
      if Find(LiveFor(e.wallet, e.skillId), installs) < |installs| {
        return Refused(409, "already_installed");
      }
      var install := Install(e.id, e.wallet, manifest.id, manifest.version, Active, e.nowMs);
      installs := Put(installs, install);
      return Ok(install);
    }

    method HandleSkillInstallAction(e: Event) returns (response: Response)
      requires e.Act?
      modifies this`installs
      ensures Contents() == Step(old(Contents()), e)
      ensures var k := Find(HasId(e.installId), old(installs));
        if old(Acts(Contents(), e)) then k < |installs| && response == Ok(installs[k]) && installs[k].id == e.installId
        else response == Refused(404, "install_not_found")
    {
      var k := Find(HasId(e.installId), installs);
      if k == |installs| || installs[k].status == Revoked {
        return Refused(404, "install_not_found");
      }
      var install := installs[k].(status := StatusAfter(e.action), updatedAt := e.nowMs);
      installs := installs[k := install];
      assert installs[k] == install;
      return Ok(install);
    }
  }

  // ---- Whole runs ------------------------------------------------------------------------------------

  predicate OneLiveEach(installs: seq<Install>) {
    forall i, j | 0 <= i < j < |installs| && installs[i].status != Revoked && installs[j].status != Revoked ::
      installs[i].wallet != installs[j].wallet || installs[i].skillId != installs[j].skillId
  }

  predicate DistinctIds(installs: seq<Install>) {
    forall i, j | 0 <= i < j < |installs| :: installs[i].id != installs[j].id
  }

  /** At most one live install for each wallet and skill, one record for each id, and the catalog's keys
      are its manifests' ids. */
  predicate Consistent(s: State) {
    && OneLiveEach(s.installs)
    && DistinctIds(s.installs)
    && (forall id | id in s.catalog :: s.catalog[id].manifest.id == id)
  }

  // The records with the one at k in another status.
  lemma ChangeKeepsConsistency(installs: seq<Install>, k: nat, changed: Install)
    requires OneLiveEach(installs) && DistinctIds(installs) && k < |installs| && IsLive(installs[k])
    requires changed.id == installs[k].id && changed.wallet == installs[k].wallet && changed.skillId == installs[k].skillId
    ensures OneLiveEach(installs[k := changed]) && DistinctIds(installs[k := changed])
  {
  }

  lemma InstallKeepsConsistency(installs: seq<Install>, install: Install)
    requires OneLiveEach(installs) && DistinctIds(installs)
    requires Find(LiveFor(install.wallet, install.skillId), installs) == |installs|
    ensures OneLiveEach(Put(installs, install)) && DistinctIds(Put(installs, install))
  {
    assert forall i | 0 <= i < |installs| :: !LiveFor(install.wallet, install.skillId)(installs[i]);
  }

  lemma StepKeepsConsistency(s: State, e: Event)
    requires Consistent(s)
    ensures Consistent(Step(s, e))
  {
    hide OneLiveEach, DistinctIds, Put;
    if Installs(s, e) {
      assert s.catalog[e.skillId].manifest.id == e.skillId;
      InstallKeepsConsistency(s.installs, NewInstall(s, e));
    } else if Acts(s, e) {
      var k := Find(HasId(e.installId), s.installs);
      ChangeKeepsConsistency(s.installs, k, s.installs[k].(status := StatusAfter(e.action), updatedAt := e.nowMs));
    }
  }

  /** In every run, whatever the ids. */
  lemma {:induction false} RunIsConsistent(events: seq<Event>)
    ensures Consistent(After(events))
  {
    if events != [] {
      RunIsConsistent(events[..|events| - 1]);
      StepKeepsConsistency(After(events[..|events| - 1]), events[|events| - 1]);
    }
  }

  // The wallet has the skill, paused or not.
  predicate HasSkill(installs: seq<Install>, wallet: string, skillId: string) {
    exists i | 0 <= i < |installs| ::
      installs[i].wallet == wallet && installs[i].skillId == skillId && installs[i].status != Revoked
  }

  // The request is for the published version, accepts its price if it has one, and the wallet has no live install.
  predicate MayInstall(s: State, e: Event)
    requires e.InstallSkill?
  {
    && e.skillId in s.catalog
    && var manifest := s.catalog[e.skillId].manifest;
      && e.manifestVersion == manifest.version && (manifest.monetized ==> e.acceptMonetization)
      && !HasSkill(s.installs, e.wallet, e.skillId)
  }

  /** A request to install adds an active install of the published version, under its fresh id, if it may, and otherwise
      changes nothing. */
  lemma InstallsWhereItMay(s: State, e: Event)
    requires Consistent(s) && e.InstallSkill? && forall i | 0 <= i < |s.installs| :: s.installs[i].id != e.id
    ensures Step(s, e) ==
      if MayInstall(s, e)
      then s.(installs := s.installs + [Install(e.id, e.wallet, e.skillId, e.manifestVersion, Active, e.nowMs)])
      else s
  {
    hide OneLiveEach, DistinctIds;
    var k := Find(LiveFor(e.wallet, e.skillId), s.installs);
    assert k == |s.installs| ==> forall i | 0 <= i < |s.installs| :: !LiveFor(e.wallet, e.skillId)(s.installs[i]);
  }

  /** Pausing, resuming and uninstalling change the status of the install with that id, and nothing where there is none
      or it is revoked. */
  lemma ActsOnItsInstall(s: State, e: Event, k: nat)
    requires Consistent(s) && e.Act?
    ensures k < |s.installs| && s.installs[k].id == e.installId && s.installs[k].status != Revoked ==>
      var status := match e.action case Pause => Paused case Resume => Active case Uninstall => Revoked;
      Step(s, e) == s.(installs := s.installs[k := s.installs[k].(status := status, updatedAt := e.nowMs)])
    ensures (forall i | 0 <= i < |s.installs| && s.installs[i].id == e.installId :: s.installs[i].status == Revoked) ==>
      Step(s, e) == s
  {
    hide OneLiveEach;
    var n := Find(HasId(e.installId), s.installs);
    if k < |s.installs| && s.installs[k].id == e.installId {
      assert HasId(e.installId)(s.installs[k]);
      assert n == k;
    }
  }

  /** A step leaves a revoked install as it is, unless it installs under the very same id. */
  lemma RevokedIsFinalIff(s: State, e: Event, k: nat)
    requires Consistent(s) && k < |s.installs| && s.installs[k].status == Revoked
    ensures Step(s, e).installs != [] && k < |Step(s, e).installs|
    ensures Step(s, e).installs[k] == s.installs[k] <==> !(Installs(s, e) && e.id == s.installs[k].id)
  {
    if Acts(s, e) {
      assert s.installs[Find(HasId(e.installId), s.installs)].status != Revoked;
    }
  }

  /** Pausing and resuming an active install changes nothing but its time stamp; only an uninstall ends it. */
  lemma PauseThenResume(s: State, id: string, t: int, u: int)
    requires Consistent(s)
    ensures var k := Find(HasId(id), s.installs); var paused := Step(s, Act(t, id, Pause));
      var resumed := Step(paused, Act(u, id, Resume));
      k < |s.installs| && IsLive(s.installs[k]) ==>
        && paused.installs == s.installs[k := s.installs[k].(status := Paused, updatedAt := t)]
        && resumed.installs == s.installs[k := s.installs[k].(status := Active, updatedAt := u)]
  {
    var k := Find(HasId(id), s.installs);
    var paused := Step(s, Act(t, id, Pause));
    if k < |s.installs| {
      assert paused.installs[k].id == id;
      assert forall i | 0 <= i < k :: paused.installs[i] == s.installs[i];
      assert Find(HasId(id), paused.installs) == k;
    }
  }

  // The publications of a manifest id, in order.
  function Publications(events: seq<Event>, id: string): seq<Event> {
    if events == [] then []
    else
      var e := events[|events| - 1];
      Publications(events[..|events| - 1], id) + (if e.Publish? && e.manifest.id == id then [e] else [])
  }

  /** The catalog has the manifest that was published last under an id, dated by the first and the last publication. */
  lemma {:induction false} CatalogIsTheLastPublished(events: seq<Event>, id: string)
    ensures var catalog, published := After(events).catalog, Publications(events, id);
      && (forall e | e in published :: e.Publish?)
      && (id in catalog <==> published != [])
      && (published != [] ==>
            catalog[id] == Record(published[|published| - 1].manifest, published[0].nowMs, published[|published| - 1].nowMs))
  {
    if events != [] {
      CatalogIsTheLastPublished(events[..|events| - 1], id);
      hide Installs, Acts, Put;
    }
  }

  function LiveWallets(installs: seq<Install>, skillId: string): set<string> {
    set install | install in installs && install.skillId == skillId && install.status != Revoked :: install.wallet
  }

  /** The count of a skill's installs is the number of wallets that have it installed, paused ones included. */
  lemma CountIsLiveWallets(events: seq<Event>, skillId: string)
    ensures ActiveInstallCount(After(events).installs, skillId) == |LiveWallets(After(events).installs, skillId)|
  {
    RunIsConsistent(events);
    CountDistinct(After(events).installs, skillId);
  }

  lemma {:induction false} CountDistinct(installs: seq<Install>, skillId: string)
    requires OneLiveEach(installs)
    ensures ActiveInstallCount(installs, skillId) == |LiveWallets(installs, skillId)|
  {
    if installs != [] {
      var first, rest := installs[0], installs[1..];
      assert OneLiveEach(rest);
      CountDistinct(rest, skillId);
      WalletsOfRest(installs, skillId);
      if LiveOf(skillId)(first) {
        FirstWalletIsNew(installs, skillId);
      }
    }
  }

  lemma WalletsOfRest(installs: seq<Install>, skillId: string)
    requires installs != []
    ensures LiveWallets(installs, skillId)
      == (if LiveOf(skillId)(installs[0]) then {installs[0].wallet} else {}) + LiveWallets(installs[1..], skillId)
  {
    assert forall install :: install in installs <==> install == installs[0] || install in installs[1..];
  }

  lemma FirstWalletIsNew(installs: seq<Install>, skillId: string)
    requires installs != [] && OneLiveEach(installs) && LiveOf(skillId)(installs[0])
    ensures installs[0].wallet !in LiveWallets(installs[1..], skillId)
  {
    forall install | install in installs[1..] && LiveOf(skillId)(install) ensures install.wallet != installs[0].wallet {
      var i :| 1 <= i < |installs| && installs[i] == install;
    }
  }

  function CountEvents(events: seq<Event>, skillId: string): (counts: (nat, nat))
  {
    if events == [] then (0, 0)
    else
      var s, e := After(events[..|events| - 1]), events[|events| - 1];
      var counts := CountEvents(events[..|events| - 1], skillId);
      if Installs(s, e) && e.skillId == skillId then (counts.0 + 1, counts.1)
      else if Acts(s, e) && e.action == Uninstall && s.installs[Find(HasId(e.installId), s.installs)].skillId == skillId
      then (counts.0, counts.1 + 1)
      else counts
  }

  // randomUUID does not repeat.
  predicate FreshIds(events: seq<Event>) {
    forall i | 0 <= i < |events| && events[i].InstallSkill? ::
      Find(HasId(events[i].id), After(events[..i]).installs) == |After(events[..i]).installs|
  }

  lemma FreshFront(events: seq<Event>)
    requires events != [] && FreshIds(events)
    ensures var front, e := events[..|events| - 1], events[|events| - 1];
      FreshIds(front) && (e.InstallSkill? ==> Find(HasId(e.id), After(front).installs) == |After(front).installs|)
  {
    hide After, Find;
    var front := events[..|events| - 1];
    forall i | 0 <= i < |front| && front[i].InstallSkill?
      ensures Find(HasId(front[i].id), After(front[..i]).installs) == |After(front[..i]).installs|
    {
      Sequences.PrefixOfPrefix(events, |events| - 1, i);
    }
  }

  lemma AfterOne(events: seq<Event>, e: Event)
    ensures After(events + [e]) == Step(After(events), e)
  {
    assert (events + [e])[..|events|] == events;
  }

  /** With fresh ids a revoked install is the same after any further events. */
  lemma {:induction false} RevokedForGood(events: seq<Event>, more: seq<Event>, k: nat)
    requires FreshIds(events + more)
    requires k < |After(events).installs| && After(events).installs[k].status == Revoked
    ensures k < |After(events + more).installs| && After(events + more).installs[k] == After(events).installs[k]
  {
    hide FreshIds, After, Step, Consistent, Find;
    if more == [] {
      Sequences.NoneThen(events);
    } else {
      var front, e := more[..|more| - 1], more[|more| - 1];
      FreshFront(events + more);
      Sequences.LastOfConcat(events, more);
      Sequences.FirstsThenLast(events, more);
      RevokedForGood(events, front, k);
      RunIsConsistent(events + front);
      AfterOne(events + front, e);
      FreshKeepsRevoked(After(events + front), e, k);
    }
  }

  lemma FreshKeepsRevoked(s: State, e: Event, k: nat)
    requires Consistent(s) && k < |s.installs| && s.installs[k].status == Revoked
    requires e.InstallSkill? ==> Find(HasId(e.id), s.installs) == |s.installs|
    ensures k < |Step(s, e).installs| && Step(s, e).installs[k] == s.installs[k]
  {
    RevokedIsFinalIff(s, e, k);
    hide Step, Consistent, Find, InstallError;
  }

  /** With fresh ids the count is what was installed less what was uninstalled. */
  lemma {:induction false} CountIsInstallsLessUninstalls(events: seq<Event>, skillId: string)
    requires FreshIds(events)
    ensures var counts := CountEvents(events, skillId);
      ActiveInstallCount(After(events).installs, skillId) == counts.0 - counts.1
  {
    if events != [] {
      var front, e := events[..|events| - 1], events[|events| - 1];
      FreshFront(events);
      CountIsInstallsLessUninstalls(front, skillId);
      RunIsConsistent(front);
      assert events[..|events| - 1] == front;
      StepCounts(After(front), e, skillId);
    }
  }

  lemma StepCounts(s: State, e: Event, skillId: string)
    requires Consistent(s)
    requires e.InstallSkill? ==> Find(HasId(e.id), s.installs) == |s.installs|
    ensures ActiveInstallCount(Step(s, e).installs, skillId) == ActiveInstallCount(s.installs, skillId)
      + (if Installs(s, e) && e.skillId == skillId then 1
         else if Acts(s, e) && e.action == Uninstall && s.installs[Find(HasId(e.installId), s.installs)].skillId == skillId
         then -1 else 0)
  {
    if Installs(s, e) {
      FilterConcat(LiveOf(skillId), s.installs, [NewInstall(s, e)]);
    } else if Acts(s, e) {
      var k := Find(HasId(e.installId), s.installs);
      ReplacedCounts(s.installs, k, Step(s, e).installs[k], skillId);
    }
  }

  lemma ReplacedCounts(installs: seq<Install>, k: nat, install: Install, skillId: string)
    requires k < |installs|
    ensures ActiveInstallCount(installs[k := install], skillId) == ActiveInstallCount(installs, skillId)
      - (if LiveOf(skillId)(installs[k]) then 1 else 0) + (if LiveOf(skillId)(install) then 1 else 0)
  {
    var p := LiveOf(skillId);
    assert installs == installs[..k] + [installs[k]] + installs[k + 1..];
    assert installs[k := install] == installs[..k] + [install] + installs[k + 1..];
    FilterConcat(p, installs[..k] + [installs[k]], installs[k + 1..]);
    FilterConcat(p, installs[..k], [installs[k]]);
    FilterConcat(p, installs[..k] + [install], installs[k + 1..]);
    FilterConcat(p, installs[..k], [install]);
  }
}
