/** Publication of reviewed drafts as template versions: approval (private,
    ownerless or shared), promotion of a private version, and the snapshot each
    session resolves template names in. Transactions are atomic steps; the
    partial unique indexes abort a step that would violate them. */
module TemplateLibrary {
  import opened Outcomes
  import opened Ownership

  type Id = string
  type Session = string

  datatype DraftStatus = PendingReview | Rejected | Approved

  datatype ValidationReport = ValidationReport(passed: bool, artifact: string, compiler: string, renderer: string, coverage: seq<int>)

  datatype QualityReport = QualityReport(passed: bool, artifact: string)

  datatype Fixture = Fixture(observation: Option<Id>, positive: bool, answered: bool, passed: bool)

  /** `triggers` is how many real examples the generation job was started from. */
  datatype Draft = Draft(
    fingerprint: string, artifact: string, status: DraftStatus, triggers: nat, predicates: nat,
    validation: Option<ValidationReport>, quality: Option<QualityReport>, fixtures: seq<Fixture>)

  datatype VersionStatus = Enabled | Disabled | Revoked

  /** No owner means shared with every session. */
  datatype Version = Version(
    name: string, fingerprint: string, draft: Id, artifact: string, status: VersionStatus, owner: Option<Session>)

  datatype Library = Library(versions: map<Id, Version>, drafts: map<Id, Draft>)

  const EMPTY := Library(map[], map[])

  datatype Policy = Policy(floor: nat, compiler: string, renderer: string, staticNames: set<string>)

  datatype Refusal =
    | DraftNotFound | DraftNotApprovable | PreconditionUnmet | RevokedConflict | NameConflict | LostRace
    | VersionNotFound | NotPromotable | TooLittleEvidence

  // ----- evidence -----

  /** The distinct observations behind verified positive fixtures. */
  function VerifiedObservations(fixtures: seq<Fixture>): set<Id> {
    set f | f in fixtures && f.positive && f.observation.Some? && f.answered && f.passed :: f.observation.value
  }

  function VerifiedCount(draft: Draft): nat {
    |VerifiedObservations(draft.fixtures)|
  }

  function Min(a: nat, b: nat): nat {
    if a <= b then a else b
  }

  function RequiredCount(policy: Policy, draft: Draft, scope: Option<Session>): nat {
    if scope.None? then policy.floor
    else Min(policy.floor, if draft.triggers < 1 then 1 else draft.triggers)
  }

  predicate Publishable(policy: Policy, draft: Draft, confirmed: bool, scope: Option<Session>) {
    && confirmed
    && draft.validation.Some? && draft.validation.value.passed && draft.validation.value.artifact == draft.artifact
    && draft.quality.Some? && draft.quality.value.passed && draft.quality.value.artifact == draft.artifact
    && draft.validation.value.compiler == policy.compiler && draft.validation.value.renderer == policy.renderer
    && draft.validation.value.coverage == seq(draft.predicates, i => i)
    && VerifiedCount(draft) >= RequiredCount(policy, draft, scope)
  }

  // ----- names -----

  predicate IsLower(c: char) {
    'a' <= c <= 'z'
  }

  predicate WellFormedName(name: string) {
    && name != "" && IsLower(name[0])
    && forall c :: c in name ==> IsLower(c) || '0' <= c <= '9' || c == '_'
  }

  predicate EnabledNamed(v: Version, name: string) {
    v.status.Enabled? && v.name == name
  }

  predicate ReplacesOwn(versions: map<Id, Version>, name: string, fingerprint: string, scope: Option<Session>) {
    exists id :: id in versions && EnabledNamed(versions[id], name)
                 && versions[id].fingerprint == fingerprint && versions[id].owner == scope
  }

  /** Publishing shared collides with any holder of the name; publishing privately
      only with a shared holder or one's own. */
  predicate NameReserved(versions: map<Id, Version>, name: string, scope: Option<Session>) {
    exists id :: id in versions && EnabledNamed(versions[id], name)
                 && (scope.None? || versions[id].owner.None? || versions[id].owner == scope)
  }

  predicate NameAvailable(policy: Policy, versions: map<Id, Version>, name: string, fingerprint: string, scope: Option<Session>) {
    && WellFormedName(name) && name !in policy.staticNames
    && (ReplacesOwn(versions, name, fingerprint, scope) || !NameReserved(versions, name, scope))
  }

  // ----- the unique indexes -----

  predicate IndexClash(a: Version, b: Version) {
    && a.status.Enabled? && b.status.Enabled? && IndexScope(a.owner) == IndexScope(b.owner)
    && (a.fingerprint == b.fingerprint || a.name == b.name)
  }

  predicate IndexesHold(versions: map<Id, Version>) {
    forall i, j :: i in versions && j in versions && i != j ==> !IndexClash(versions[i], versions[j])
  }

  // ----- approval -----

  predicate IsReplaced(v: Version, fingerprint: string, owner: Option<Session>, shared: bool) {
    && v.status.Enabled? && v.fingerprint == fingerprint
    && (v.owner == owner || (shared && v.owner.None?))
  }

  function DisableReplaced(versions: map<Id, Version>, fingerprint: string, owner: Option<Session>, shared: bool): map<Id, Version> {
    map id | id in versions ::
      if IsReplaced(versions[id], fingerprint, owner, shared) then versions[id].(status := Disabled) else versions[id]
  }

  predicate HasRevoked(versions: map<Id, Version>, fingerprint: string) {
    exists id :: id in versions && versions[id].fingerprint == fingerprint && versions[id].status.Revoked?
  }

  datatype Approval = Approval(draft: Id, name: string, confirmed: bool, owner: Option<Session>, shared: bool, version: Id) {
    /** Whom the published version will be visible to. */
    function Scope(): Option<Session> {
      if shared then None else owner
    }
  }

  /** The first check that fails, in the order the checks are made. */
  function ApprovalRefusal(policy: Policy, lib: Library, a: Approval): Option<Refusal> {
    if a.draft !in lib.drafts then Some(DraftNotFound)
    else
      var draft := lib.drafts[a.draft];
      if !draft.status.PendingReview? then Some(DraftNotApprovable)
      else if !Publishable(policy, draft, a.confirmed, a.Scope()) then Some(PreconditionUnmet)
      else if HasRevoked(lib.versions, draft.fingerprint) then Some(RevokedConflict)
      else if !NameAvailable(policy, lib.versions, a.name, draft.fingerprint, a.Scope()) then Some(NameConflict)
      else None
  }

  function Published(lib: Library, a: Approval): Library
    requires a.draft in lib.drafts
  {
    var draft := lib.drafts[a.draft];
    Library(
      DisableReplaced(lib.versions, draft.fingerprint, a.owner, a.shared)[
      a.version := Version(a.name, draft.fingerprint, a.draft, draft.artifact, Enabled, a.Scope())],
      lib.drafts[a.draft := draft.(status := Approved)])
  }

  function ApproveResult(policy: Policy, lib: Library, a: Approval): Result<Library, Refusal> {
    var refusal := ApprovalRefusal(policy, lib, a);
    if refusal.Some? then Err(refusal.value)
    else if !IndexesHold(Published(lib, a).versions) then Err(LostRace)
    else Ok(Published(lib, a))
  }

  // ----- promotion -----

  predicate NameTakenShared(versions: map<Id, Version>, name: string) {
    exists id :: id in versions && EnabledNamed(versions[id], name) && versions[id].owner.None?
  }

  predicate NameHeldPrivately(versions: map<Id, Version>, name: string, except: Id) {
    exists id :: id in versions && EnabledNamed(versions[id], name) && versions[id].owner.Some? && id != except
  }

  predicate FingerprintShared(versions: map<Id, Version>, fingerprint: string) {
    exists id :: id in versions && versions[id].status.Enabled? && versions[id].fingerprint == fingerprint
                 && versions[id].owner.None?
  }

  function DraftEvidence(lib: Library, draft: Id): nat {
    if draft in lib.drafts then VerifiedCount(lib.drafts[draft]) else 0
  }

  function PromoteResult(policy: Policy, lib: Library, id: Id): Result<Library, Refusal> {
    if id !in lib.versions then Err(VersionNotFound)
    else
      var v := lib.versions[id];
      if !v.status.Enabled? || v.owner.None? then Err(NotPromotable)
      else if DraftEvidence(lib, v.draft) < policy.floor then Err(TooLittleEvidence)
      else if NameTakenShared(lib.versions, v.name) || NameHeldPrivately(lib.versions, v.name, id)
              || FingerprintShared(lib.versions, v.fingerprint) then Err(NameConflict)
      else
        var promoted := lib.(versions := lib.versions[id := v.(owner := None)]);
        if !IndexesHold(promoted.versions) then Err(LostRace) else Ok(promoted)
  }

  // ----- the transition system -----

  /** Evidence is written, and drafts are rejected or restored, only while the
      draft's status allows it; withdrawing never enables a version. */
  datatype Step =
    | Approve(approval: Approval)
    | Promote(id: Id)
    | Withdraw(id: Id, status: VersionStatus)
    | CreateDraft(id: Id, draft: Draft)
    | WriteEvidence(id: Id, draft: Draft)
    | Reject(id: Id)
    | Restore(id: Id)

  predicate Possible(lib: Library, s: Step) {
    match s
    case Approve(a) => a.version !in lib.versions
    case Withdraw(id, status) => id in lib.versions && !status.Enabled?
    case CreateDraft(id, draft) => id !in lib.drafts && draft.status.PendingReview?
    case WriteEvidence(id, draft) =>
      && id in lib.drafts && lib.drafts[id].status.PendingReview?
      && draft.status.PendingReview? && draft.fingerprint == lib.drafts[id].fingerprint
    case Reject(id) => id in lib.drafts && lib.drafts[id].status.PendingReview?
    case Restore(id) => id in lib.drafts && lib.drafts[id].status.Rejected?
    case _ => true
  }

  function Next(policy: Policy, lib: Library, s: Step): Library
    requires Possible(lib, s)
  {
    match s
    case Approve(a) => var r := ApproveResult(policy, lib, a); if r.Ok? then r.value else lib
    case Promote(id) => var r := PromoteResult(policy, lib, id); if r.Ok? then r.value else lib
    case Withdraw(id, status) => lib.(versions := lib.versions[id := lib.versions[id].(status := status)])
    case CreateDraft(id, draft) => lib.(drafts := lib.drafts[id := draft])
    case WriteEvidence(id, draft) => lib.(drafts := lib.drafts[id := draft])
    case Reject(id) => lib.(drafts := lib.drafts[id := lib.drafts[id].(status := Rejected)])
    case Restore(id) => lib.(drafts := lib.drafts[id := lib.drafts[id].(status := PendingReview)])
  }

  // ----- what every reachable library satisfies -----

  predicate VisibleTo(v: Version, session: Option<Session>) {
    v.status.Enabled? && (v.owner.None? || (session.Some? && v.owner == session))
  }

  /** For any session, the versions it can see have different names. */
  ghost predicate UniqueNames(versions: map<Id, Version>) {
    forall session: Option<Session>, i, j ::
      (i in versions && j in versions && VisibleTo(versions[i], session) && VisibleTo(versions[j], session)
       && versions[i].name == versions[j].name) ==> i == j
  }

  predicate SamePlace(a: Version, b: Version) {
    a.status.Enabled? && b.status.Enabled? && a.fingerprint == b.fingerprint && a.owner == b.owner
  }

  ghost predicate OnePerFingerprint(versions: map<Id, Version>) {
    forall i, j :: i in versions && j in versions && SamePlace(versions[i], versions[j]) ==> i == j
  }

  /** Shared versions rest on the full configured evidence. */
  ghost predicate SharedEvidence(policy: Policy, lib: Library) {
    forall i :: i in lib.versions && lib.versions[i].owner.None? ==> DraftEvidence(lib, lib.versions[i].draft) >= policy.floor
  }

  /** Every version comes from its own approved draft. */
  ghost predicate DraftLinks(lib: Library) {
    && (forall i :: i in lib.versions ==>
                      lib.versions[i].draft in lib.drafts && lib.drafts[lib.versions[i].draft].status.Approved?)
    && forall i, j :: i in lib.versions && j in lib.versions && lib.versions[i].draft == lib.versions[j].draft ==> i == j
  }

  ghost predicate Inv(policy: Policy, lib: Library) {
    UniqueNames(lib.versions) && OnePerFingerprint(lib.versions) && SharedEvidence(policy, lib) && DraftLinks(lib)
  }

  /** Two enabled versions with one name that some session would see together. */
  predicate Collide(a: Version, b: Version) {
    && a.status.Enabled? && b.status.Enabled? && a.name == b.name
    && (a.owner.None? || b.owner.None? || a.owner == b.owner)
  }

  lemma UniqueNamesIff(versions: map<Id, Version>)
    ensures UniqueNames(versions) <==>
            forall i, j :: i in versions && j in versions && Collide(versions[i], versions[j]) ==> i == j
  {
    forall i, j | i in versions && j in versions && Collide(versions[i], versions[j])
      ensures exists session: Option<Session> :: VisibleTo(versions[i], session) && VisibleTo(versions[j], session)
    {
      var session := if versions[i].owner.Some? then versions[i].owner else versions[j].owner;
      assert VisibleTo(versions[i], session) && VisibleTo(versions[j], session);
    }
  }

  /** The published version collides with no other; the others were at most
      disabled. */
  lemma PublishedAlone(policy: Policy, lib: Library, a: Approval, i: Id)
    requires UniqueNames(lib.versions) && ApprovalRefusal(policy, lib, a).None? && a.version !in lib.versions
    requires i in lib.versions
    ensures
      var now := Published(lib, a).versions;
      && !Collide(now[i], now[a.version]) && !Collide(now[a.version], now[i])
      && !SamePlace(now[i], now[a.version]) && !SamePlace(now[a.version], now[i])
      && (now[i] == lib.versions[i] || now[i] == lib.versions[i].(status := Disabled))
  {
    hide Publishable, HasRevoked, WellFormedName;
    UniqueNamesIff(lib.versions);
    hide UniqueNames;
    var v, fingerprint := lib.versions[i], lib.drafts[a.draft].fingerprint;
    if ReplacesOwn(lib.versions, a.name, fingerprint, a.Scope()) {
      var own :| own in lib.versions && EnabledNamed(lib.versions[own], a.name)
                 && lib.versions[own].fingerprint == fingerprint && lib.versions[own].owner == a.Scope();
      assert Collide(v, lib.versions[own]) ==> i == own;
    }
  }

  lemma PublishKeepsUnique(policy: Policy, lib: Library, a: Approval)
    requires UniqueNames(lib.versions) && OnePerFingerprint(lib.versions)
    requires a.version !in lib.versions && ApprovalRefusal(policy, lib, a).None?
    ensures UniqueNames(Published(lib, a).versions) && OnePerFingerprint(Published(lib, a).versions)
  {
    var now := Published(lib, a).versions;
    assert now.Keys == lib.versions.Keys + {a.version};
    hide ApprovalRefusal, Published;
    UniqueNamesIff(lib.versions);
    UniqueNamesIff(now);
    forall i, j | i in now && j in now && (Collide(now[i], now[j]) || SamePlace(now[i], now[j]))
      ensures i == j
    {
      hide UniqueNames;
      if i in lib.versions {
        PublishedAlone(policy, lib, a, i);
      }
      if j in lib.versions {
        PublishedAlone(policy, lib, a, j);
      }
      if i in lib.versions && j in lib.versions {
        assert Collide(lib.versions[i], lib.versions[j]) || SamePlace(lib.versions[i], lib.versions[j]);
      }
    }
  }

  lemma ApproveKeeps(policy: Policy, lib: Library, a: Approval)
    requires Inv(policy, lib) && a.version !in lib.versions && ApprovalRefusal(policy, lib, a).None?
    ensures Inv(policy, Published(lib, a))
  {
    hide ApprovalRefusal, UniqueNames, OnePerFingerprint, SharedEvidence, DraftLinks, Published;
    PublishKeepsUnique(policy, lib, a);
    PublishKeepsLinks(policy, lib, a);
  }

  /** Publication adds one version of the approved draft; every other version
      keeps its draft and its owner. */
  lemma PublishedRows(lib: Library, a: Approval, i: Id)
    requires a.draft in lib.drafts && i in Published(lib, a).versions
    ensures
      var v := Published(lib, a).versions[i];
      if i == a.version then v.draft == a.draft && v.owner == a.Scope()
      else i in lib.versions && v.draft == lib.versions[i].draft && v.owner == lib.versions[i].owner
  {
  }

  lemma PublishableDraft(policy: Policy, lib: Library, a: Approval)
    requires ApprovalRefusal(policy, lib, a).None?
    ensures a.draft in lib.drafts && lib.drafts[a.draft].status.PendingReview?
    ensures a.Scope().None? ==> VerifiedCount(lib.drafts[a.draft]) >= policy.floor
  {
    hide NameAvailable, HasRevoked;
  }

  lemma PublishKeepsLinks(policy: Policy, lib: Library, a: Approval)
    requires SharedEvidence(policy, lib) && DraftLinks(lib)
    requires a.version !in lib.versions && ApprovalRefusal(policy, lib, a).None?
    ensures SharedEvidence(policy, Published(lib, a)) && DraftLinks(Published(lib, a))
  {
    var now := Published(lib, a);
    PublishableDraft(policy, lib, a);
    assert now.drafts == lib.drafts[a.draft := lib.drafts[a.draft].(status := Approved)];
    hide Published, ApprovalRefusal, VerifiedObservations;
    forall i | i in now.versions
      ensures now.versions[i].draft in now.drafts && now.drafts[now.versions[i].draft].status.Approved?
      ensures now.versions[i].owner.None? ==> DraftEvidence(now, now.versions[i].draft) >= policy.floor
      ensures i != a.version ==> i in lib.versions && now.versions[i].draft != a.draft
    {
      PublishedRows(lib, a, i);
    }
    forall i, j | i in now.versions && j in now.versions && now.versions[i].draft == now.versions[j].draft
      ensures i == j
    {
      PublishedRows(lib, a, i);
      PublishedRows(lib, a, j);
    }
  }

  predicate NamedOwners(versions: map<Id, Version>) {
    forall i :: i in versions ==> versions[i].owner != Some("")
  }

  lemma ClashIsCollision(a: Version, b: Version)
    requires a.owner != Some("") && b.owner != Some("") && IndexClash(a, b)
    ensures Collide(a, b) || SamePlace(a, b)
  {
  }

  lemma UniqueMeansIndexed(versions: map<Id, Version>)
    requires UniqueNames(versions) && OnePerFingerprint(versions) && NamedOwners(versions)
    ensures IndexesHold(versions)
  {
    UniqueNamesIff(versions);
    hide UniqueNames;
    forall i, j | i in versions && j in versions && i != j
      ensures !IndexClash(versions[i], versions[j])
    {
      if IndexClash(versions[i], versions[j]) {
        ClashIsCollision(versions[i], versions[j]);
      }
    }
  }

  /** With no empty session name the indexes never abort an approval. */
  lemma ApprovalNeverLosesToIndexes(policy: Policy, lib: Library, a: Approval)
    requires Inv(policy, lib) && a.version !in lib.versions && ApprovalRefusal(policy, lib, a).None?
    requires a.owner != Some("") && NamedOwners(lib.versions)
    ensures ApproveResult(policy, lib, a) == Ok(Published(lib, a))
  {
    hide UniqueNames, OnePerFingerprint, SharedEvidence, DraftLinks;
    ApproveKeeps(policy, lib, a);
    UniqueMeansIndexed(Published(lib, a).versions) by {
      hide Publishable, HasRevoked, NameAvailable;
    }
  }

  lemma PromoteKeeps(policy: Policy, lib: Library, id: Id)
    requires Inv(policy, lib) && PromoteResult(policy, lib, id).Ok?
    ensures Inv(policy, PromoteResult(policy, lib, id).value)
  {
  }

  lemma StepKeeps(policy: Policy, lib: Library, s: Step)
    requires Inv(policy, lib) && Possible(lib, s)
    ensures Inv(policy, Next(policy, lib, s))
  {
    match s {
      case Approve(a) =>
        if ApproveResult(policy, lib, a).Ok? {
          ApproveKeeps(policy, lib, a);
        }
      case Promote(id) =>
        if PromoteResult(policy, lib, id).Ok? {
          PromoteKeeps(policy, lib, id);
        }
      case Withdraw(id, status) => WithdrawKeeps(policy, lib, id, status);
      case _ => DraftStepKeeps(policy, lib, s);
    }
  }

  lemma WithdrawKeeps(policy: Policy, lib: Library, id: Id, status: VersionStatus)
    requires Inv(policy, lib) && id in lib.versions && !status.Enabled?
    ensures Inv(policy, Next(policy, lib, Withdraw(id, status)))
  {
  }

  lemma DraftStepKeeps(policy: Policy, lib: Library, s: Step)
    requires Inv(policy, lib) && Possible(lib, s) && !s.Approve? && !s.Promote? && !s.Withdraw?
    ensures Inv(policy, Next(policy, lib, s))
  {
  }

  ghost predicate Run(policy: Policy, libs: seq<Library>, steps: seq<Step>) {
    && |libs| == |steps| + 1 && libs[0] == EMPTY
    && forall k :: 0 <= k < |steps| ==> Possible(libs[k], steps[k]) && libs[k + 1] == Next(policy, libs[k], steps[k])
  }

  /** Every library any run reaches: names unique per session, one enabled version
      per fingerprint and owner, shared versions fully evidenced, one version per
      draft. */
  lemma {:induction false} RunKeeps(policy: Policy, libs: seq<Library>, steps: seq<Step>, k: nat)
    requires Run(policy, libs, steps) && k < |libs|
    ensures Inv(policy, libs[k])
  {
    hide Next, Possible, UniqueNames, OnePerFingerprint, SharedEvidence, DraftLinks;
    if k == 0 {
      EmptyInv(policy);
    } else {
      RunKeeps(policy, libs, steps, k - 1);
      StepKeeps(policy, libs[k - 1], steps[k - 1]);
    }
  }

  lemma EmptyInv(policy: Policy)
    ensures Inv(policy, EMPTY)
  {
  }

  /** An approved draft never leaves that status and its evidence is frozen. */
  lemma {:induction false} ApprovedStays(policy: Policy, libs: seq<Library>, steps: seq<Step>, i: nat, j: nat, d: Id)
    requires Run(policy, libs, steps) && i <= j < |libs|
    requires d in libs[i].drafts && libs[i].drafts[d].status.Approved?
    ensures d in libs[j].drafts && libs[j].drafts[d] == libs[i].drafts[d]
    decreases j - i
  {
    hide IndexesHold, Publishable, NameAvailable, HasRevoked, DisableReplaced;
    if i < j {
      ApprovedStays(policy, libs, steps, i, j - 1, d);
      assert libs[j] == Next(policy, libs[j - 1], steps[j - 1]);
    }
  }

  // ----- the snapshot -----

  /** One result row of the snapshot query. */
  datatype Row = Row(id: Id, version: Version)

  datatype Entry = Entry(versionId: Id, artifact: string)

  function EntryFor(row: Row): Entry {
    Entry(row.id, row.version.artifact)
  }

  /** The rows a query for this session may return, in whatever order. */
  ghost predicate IsQueryResult(rows: seq<Row>, versions: map<Id, Version>, session: Option<Session>) {
    && (forall r :: r in rows ==> r.id in versions && versions[r.id] == r.version && VisibleTo(r.version, session))
    && (forall i :: i in versions && VisibleTo(versions[i], session) ==> Row(i, versions[i]) in rows)
    && forall a, b :: 0 <= a < b < |rows| ==> rows[a].id != rows[b].id
  }

  predicate OwnsFingerprint(rows: seq<Row>, fingerprint: string) {
    exists r :: r in rows && r.version.owner.Some? && r.version.fingerprint == fingerprint
  }

  /** A shared row is dropped when the session owns a version for its fingerprint. */
  predicate Offered(rows: seq<Row>, row: Row) {
    row.version.owner.Some? || !OwnsFingerprint(rows, row.version.fingerprint)
  }

  predicate InPass(rows: seq<Row>, row: Row, owned: bool) {
    Offered(rows, row) && row.version.owner.Some? == owned
  }

  /** The entries after a pass over these first rows of the result. */
  function EnterRows(all: seq<Row>, rows: seq<Row>, owned: bool, before: map<string, Entry>): map<string, Entry> {
    if rows == [] then before
    else
      var last := rows[|rows| - 1];
      var entries := EnterRows(all, rows[..|rows| - 1], owned, before);
      if InPass(all, last, owned) then entries[last.version.name := EntryFor(last)] else entries
  }

  /** Shared rows first, then the session's own. */
  function SharedEntries(rows: seq<Row>): map<string, Entry> {
    EnterRows(rows, rows, false, map[])
  }

  function SnapshotOf(rows: seq<Row>): map<string, Entry> {
    EnterRows(rows, rows, true, SharedEntries(rows))
  }

  /** The row at this place of a pass finds its name already taken. */
  predicate TakenAt(rows: seq<Row>, owned: bool, before: map<string, Entry>, i: nat)
    requires i < |rows|
  {
    InPass(rows, rows[i], owned) && rows[i].version.name in EnterRows(rows, rows[..i], owned, before)
  }

  predicate ClashAt(rows: seq<Row>, i: nat)
    requires i < |rows|
  {
    TakenAt(rows, true, SharedEntries(rows), i)
  }

  method RunPass(rows: seq<Row>, owned: bool, before: map<string, Entry>)
    returns (entries: map<string, Entry>, taken: set<nat>)
    ensures entries == EnterRows(rows, rows, owned, before)
    ensures forall i :: i in taken <==> 0 <= i < |rows| && TakenAt(rows, owned, before, i)
  {
    entries, taken := before, {};
    for i := 0 to |rows|
      invariant entries == EnterRows(rows, rows[..i], owned, before)
      invariant forall k :: k in taken <==> 0 <= k < i && TakenAt(rows, owned, before, k)
    {
      hide InPass;
      var row := rows[i];
      assert rows[..i + 1][..i] == rows[..i];
      if InPass(rows, row, owned) {
        if row.version.name in entries {
          taken := taken + {i};
        }
        entries := entries[row.version.name := EntryFor(row)];
      }
    }
    assert rows[..|rows|] == rows;
  }

  /** The snapshot of one session, and whether an own version ever displaced an
      entry of the same name. */
  method LoadEnabledSnapshot(rows: seq<Row>) returns (entries: map<string, Entry>, collided: bool)
    ensures entries == SnapshotOf(rows)
    ensures collided <==> exists i :: 0 <= i < |rows| && ClashAt(rows, i)
  {
    hide EnterRows, InPass;
    var sharedTaken, ownedTaken;
    entries, sharedTaken := RunPass(rows, false, map[]);
    entries, ownedTaken := RunPass(rows, true, entries);
    collided := ownedTaken != {};
    if i :| i in ownedTaken {
      assert ClashAt(rows, i);
    } else {
      assert ownedTaken == {};
    }
  }

  /** Every entry of a pass is one of its rows or was there before. */
  lemma {:induction false} EnteredFrom(all: seq<Row>, rows: seq<Row>, owned: bool, before: map<string, Entry>, n: string)
    requires n in EnterRows(all, rows, owned, before)
    ensures
      var entry := EnterRows(all, rows, owned, before)[n];
      || (n in before && entry == before[n])
      || exists r :: r in rows && InPass(all, r, owned) && r.version.name == n && entry == EntryFor(r)
  {
    hide InPass;
    if rows != [] {
      var front, last := rows[..|rows| - 1], rows[|rows| - 1];
      if !(InPass(all, last, owned) && last.version.name == n) {
        EnteredFrom(all, front, owned, before, n);
        if r :| r in front && InPass(all, r, owned) && r.version.name == n
                && EnterRows(all, rows, owned, before)[n] == EntryFor(r) {
          assert r in rows;
        }
      }
    }
  }

  /** Every row of a pass is entered, and only a row of its own name can replace it. */
  lemma {:induction false} RowEntered(all: seq<Row>, rows: seq<Row>, owned: bool, before: map<string, Entry>, r: Row)
    requires r in rows && InPass(all, r, owned)
    ensures r.version.name in EnterRows(all, rows, owned, before)
    ensures exists q :: q in rows && InPass(all, q, owned) && q.version.name == r.version.name
                        && EnterRows(all, rows, owned, before)[r.version.name] == EntryFor(q)
  {
    hide InPass;
    var front, last := rows[..|rows| - 1], rows[|rows| - 1];
    if InPass(all, last, owned) && last.version.name == r.version.name {
      assert last in rows;
    } else {
      assert rows == front + [last] && r in front;
      RowEntered(all, front, owned, before, r);
      var q :| q in front && InPass(all, q, owned) && q.version.name == r.version.name
               && EnterRows(all, front, owned, before)[r.version.name] == EntryFor(q);
      assert q in rows;
    }
  }

  lemma {:induction false} EarlierKept(all: seq<Row>, rows: seq<Row>, owned: bool, before: map<string, Entry>, n: string)
    requires n in before
    ensures n in EnterRows(all, rows, owned, before)
    ensures (forall r :: r in rows && InPass(all, r, owned) ==> r.version.name != n) ==>
              EnterRows(all, rows, owned, before)[n] == before[n]
  {
    hide InPass;
    if rows != [] {
      var front, last := rows[..|rows| - 1], rows[|rows| - 1];
      assert rows == front + [last];
      EarlierKept(all, front, owned, before, n);
    }
  }

  /** Whatever the rows, a name the session owns resolves to a version it owns. */
  lemma OwnVersionWins(rows: seq<Row>, r: Row)
    requires r in rows && r.version.owner.Some?
    ensures r.version.name in SnapshotOf(rows)
    ensures exists q :: q in rows && q.version.owner.Some? && q.version.name == r.version.name
                        && SnapshotOf(rows)[r.version.name] == EntryFor(q)
  {
    hide EnterRows;
    RowEntered(rows, rows, true, SharedEntries(rows), r);
  }

  ghost predicate DistinctNames(rows: seq<Row>) {
    forall a, b :: 0 <= a < |rows| && 0 <= b < |rows| && rows[a].version.name == rows[b].version.name ==> a == b
  }

  lemma QueryDistinctNames(rows: seq<Row>, versions: map<Id, Version>, session: Option<Session>)
    requires IsQueryResult(rows, versions, session) && UniqueNames(versions)
    ensures DistinctNames(rows)
  {
  }

  /** In a reachable library the snapshot loses no offered row and invents none,
      and the collision branch is never taken. */
  lemma SnapshotLosesNothing(rows: seq<Row>, versions: map<Id, Version>, session: Option<Session>)
    requires IsQueryResult(rows, versions, session) && UniqueNames(versions)
    ensures forall r :: r in rows && Offered(rows, r) ==>
                          r.version.name in SnapshotOf(rows) && SnapshotOf(rows)[r.version.name] == EntryFor(r)
    ensures forall n :: n in SnapshotOf(rows) ==>
                          exists r :: r in rows && Offered(rows, r) && r.version.name == n && SnapshotOf(rows)[n] == EntryFor(r)
    ensures forall i :: 0 <= i < |rows| ==> !ClashAt(rows, i)
  {
    QueryDistinctNames(rows, versions, session);
    hide EnterRows, UniqueNames, IsQueryResult, Offered;
    forall r | r in rows && Offered(rows, r)
      ensures r.version.name in SnapshotOf(rows) && SnapshotOf(rows)[r.version.name] == EntryFor(r)
    {
      OfferedIsEntered(rows, r);
    }
    forall n | n in SnapshotOf(rows)
      ensures exists r :: r in rows && Offered(rows, r) && r.version.name == n && SnapshotOf(rows)[n] == EntryFor(r)
    {
      EnteredFrom(rows, rows, true, SharedEntries(rows), n);
      if n in SharedEntries(rows) {
        EnteredFrom(rows, rows, false, map[], n);
      }
    }
    forall i | 0 <= i < |rows|
      ensures !ClashAt(rows, i)
    {
      NoClash(rows, i);
    }
  }

  lemma OfferedIsEntered(rows: seq<Row>, r: Row)
    requires DistinctNames(rows) && r in rows && Offered(rows, r)
    ensures r.version.name in SnapshotOf(rows) && SnapshotOf(rows)[r.version.name] == EntryFor(r)
  {
    hide EnterRows, Offered;
    if r.version.owner.Some? {
      RowEntered(rows, rows, true, SharedEntries(rows), r);
    } else {
      RowEntered(rows, rows, false, map[], r);
      EarlierKept(rows, rows, true, SharedEntries(rows), r.version.name);
    }
  }

  lemma NoClash(rows: seq<Row>, i: nat)
    requires DistinctNames(rows) && i < |rows|
    ensures !ClashAt(rows, i)
  {
    hide EnterRows, Offered;
    if ClashAt(rows, i) {
      var n := rows[i].version.name;
      EnteredFrom(rows, rows[..i], true, SharedEntries(rows), n);
      if n in SharedEntries(rows) {
        EnteredFrom(rows, rows, false, map[], n);
      }
    }
  }

  /** Each fingerprint a session can see is offered under exactly one name, its
      own version if it has one. */
  lemma SnapshotCoversFingerprints(rows: seq<Row>, versions: map<Id, Version>, session: Option<Session>, i: Id)
    requires UniqueNames(versions) && OnePerFingerprint(versions) && IsQueryResult(rows, versions, session)
    requires i in versions && VisibleTo(versions[i], session)
    ensures exists r :: r in rows && Offered(rows, r) && r.version.fingerprint == versions[i].fingerprint
                        && (versions[i].owner.Some? ==> r == Row(i, versions[i]))
    ensures forall r, q :: (r in rows && q in rows && Offered(rows, r) && Offered(rows, q)
                            && r.version.fingerprint == q.version.fingerprint) ==> r == q
  {
  }

  /** A successful approval is what its scope then resolves: the session that owns
      it, or for a shared version every session without its own version for the
      fingerprint, is offered the new version under the approved name, and nothing
      but the enabled versions it replaces was touched. */
  lemma ApprovedIsOffered(policy: Policy, lib: Library, a: Approval, rows: seq<Row>, session: Option<Session>)
    requires Inv(policy, lib) && a.version !in lib.versions && ApproveResult(policy, lib, a).Ok?
    requires IsQueryResult(rows, ApproveResult(policy, lib, a).value.versions, session)
    requires a.Scope().None? || session == a.Scope()
    requires a.Scope().None? ==> !OwnsFingerprint(rows, lib.drafts[a.draft].fingerprint)
    ensures
      var n := ApproveResult(policy, lib, a).value;
      && a.version in n.versions && a.name in SnapshotOf(rows)
      && SnapshotOf(rows)[a.name] == Entry(a.version, lib.drafts[a.draft].artifact)
      && lib.versions.Keys <= n.versions.Keys
      && (forall i :: i in lib.versions ==>
                        n.versions[i] == (if IsReplaced(lib.versions[i], lib.drafts[a.draft].fingerprint, a.owner, a.shared)
                                          then lib.versions[i].(status := Disabled) else lib.versions[i]))
  {
    hide Publishable, HasRevoked, NameAvailable, IndexesHold, SharedEvidence, DraftLinks, SnapshotOf, UniqueNames;
    ApproveKeeps(policy, lib, a);
    var n := ApproveResult(policy, lib, a).value;
    SnapshotLosesNothing(rows, n.versions, session);
    var row := Row(a.version, n.versions[a.version]);
    assert row in rows && Offered(rows, row);
  }

  /** A successful promotion is offered to every session without its own version
      for the fingerprint, and changes nothing but its owner. */
  lemma PromotedIsOffered(policy: Policy, lib: Library, id: Id, rows: seq<Row>, session: Option<Session>)
    requires Inv(policy, lib) && PromoteResult(policy, lib, id).Ok?
    requires IsQueryResult(rows, PromoteResult(policy, lib, id).value.versions, session)
    requires !OwnsFingerprint(rows, lib.versions[id].fingerprint)
    ensures
      var n := PromoteResult(policy, lib, id).value;
      && n == lib.(versions := lib.versions[id := lib.versions[id].(owner := None)])
      && lib.versions[id].name in SnapshotOf(rows)
      && SnapshotOf(rows)[lib.versions[id].name] == Entry(id, lib.versions[id].artifact)
  {
    hide IndexesHold, SharedEvidence, DraftLinks, SnapshotOf, UniqueNames, DraftEvidence;
    PromoteKeeps(policy, lib, id);
    var n := PromoteResult(policy, lib, id).value;
    SnapshotLosesNothing(rows, n.versions, session);
    var row := Row(id, n.versions[id]);
    assert row in rows && Offered(rows, row);
  }

  // ----- the store -----

  /** The tables the transactions update. A refused or aborted transaction leaves
      them as they were. */
  class TemplateStore {
    const policy: Policy
    var versions: map<Id, Version>
    var drafts: map<Id, Draft>

    function Value(): Library
      reads this
    {
      Library(versions, drafts)
    }

    constructor (policy: Policy)
      ensures Value() == EMPTY && this.policy == policy
    {
      this.policy := policy;
      versions, drafts := map[], map[];
    }

    /** Claim the draft, disable what it replaces, insert the version; roll back
        when an index refuses the insertion. */
    method ApproveDraft(a: Approval) returns (r: Result<Version, Refusal>)
      requires a.version !in versions
      modifies this
      ensures Value() == Next(policy, old(Value()), Approve(a))
      ensures r.Ok? <==> ApproveResult(policy, old(Value()), a).Ok?
      ensures r.Err? ==> r.error == ApproveResult(policy, old(Value()), a).error
      ensures r.Ok? ==> a.version in versions && r.value == versions[a.version]
    {
      hide Publishable, HasRevoked, NameAvailable, IndexesHold;
      if a.draft !in drafts {
        return Err(DraftNotFound);
      }
      var draft := drafts[a.draft];
      if !draft.status.PendingReview? {
        return Err(DraftNotApprovable);
      }
      if !Publishable(policy, draft, a.confirmed, a.Scope()) {
        return Err(PreconditionUnmet);
      }
      if HasRevoked(versions, draft.fingerprint) {
        return Err(RevokedConflict);
      }
      if !NameAvailable(policy, versions, a.name, draft.fingerprint, a.Scope()) {
        return Err(NameConflict);
      }
      var versionsBefore, draftsBefore := versions, drafts;
      drafts := drafts[a.draft := draft.(status := Approved)];
      versions := DisableReplaced(versions, draft.fingerprint, a.owner, a.shared);
      var version := Version(a.name, draft.fingerprint, a.draft, draft.artifact, Enabled, a.Scope());
      versions := versions[a.version := version];
      if !IndexesHold(versions) {
        versions, drafts := versionsBefore, draftsBefore;
        return Err(LostRace);
      }
      return Ok(version);
    }

    method PromoteVersion(id: Id) returns (r: Result<Version, Refusal>)
      modifies this
      ensures Value() == Next(policy, old(Value()), Promote(id))
      ensures r.Ok? <==> PromoteResult(policy, old(Value()), id).Ok?
      ensures r.Err? ==> r.error == PromoteResult(policy, old(Value()), id).error
    {
      hide IndexesHold, VerifiedCount, NameTakenShared, NameHeldPrivately, FingerprintShared;
      if id !in versions {
        return Err(VersionNotFound);
      }
      var version := versions[id];
      if !version.status.Enabled? || version.owner.None? {
        return Err(NotPromotable);
      }
      if DraftEvidence(Value(), version.draft) < policy.floor {
        return Err(TooLittleEvidence);
      }
      if NameTakenShared(versions, version.name) {
        return Err(NameConflict);
      }
      if NameHeldPrivately(versions, version.name, id) {
        return Err(NameConflict);
      }
      if FingerprintShared(versions, version.fingerprint) {
        return Err(NameConflict);
      }
      var before := versions;
      versions := versions[id := version.(owner := None)];
      if !IndexesHold(versions) {
        versions := before;
        return Err(LostRace);
      }
      return Ok(versions[id]);
    }
  }
}
