/** What stands behind every published template version, told by the rows: which
    approvals and promotions go through, and what any run has checked before a
    version appeared. */
module TemplatePublication {
  import opened Collections
  import opened Outcomes
  import opened Ownership
  import opened TemplateLibrary

  /** The observation is behind a positive fixture that was answered and passed. */
  predicate Verified(fixtures: seq<Fixture>, observation: Id) {
    exists f :: f in fixtures && f == Fixture(Some(observation), true, true, true)
  }

  /** So many different observations are verified. */
  ghost predicate Evidenced(fixtures: seq<Fixture>, count: nat) {
    exists seen: set<Id> :: |seen| >= count && forall o :: o in seen ==> Verified(fixtures, o)
  }

  /** A private version needs no more evidence than the examples its generation was
      started from, but always some, unless the floor is zero. */
  ghost predicate EvidenceSuffices(policy: Policy, draft: Draft, scope: Option<Session>) {
    || Evidenced(draft.fixtures, policy.floor)
    || (scope.Some? && Evidenced(draft.fixtures, 1) && Evidenced(draft.fixtures, draft.triggers))
  }

  predicate ReportsPass(policy: Policy, draft: Draft) {
    && draft.validation.Some? && draft.quality.Some?
    && (var v, q := draft.validation.value, draft.quality.value;
        && v.passed && q.passed && v.artifact == draft.artifact == q.artifact
        && v.compiler == policy.compiler && v.renderer == policy.renderer
        && |v.coverage| == draft.predicates && forall k | 0 <= k < |v.coverage| :: v.coverage[k] == k)
  }

  /** Everything the approval checks besides the name. */
  ghost predicate Vetted(policy: Policy, lib: Library, a: Approval) {
    && a.confirmed && a.draft in lib.drafts && lib.drafts[a.draft].status == PendingReview
    && ReportsPass(policy, lib.drafts[a.draft])
    && EvidenceSuffices(policy, lib.drafts[a.draft], if a.shared then None else a.owner)
    && forall i :: i in lib.versions && lib.versions[i].fingerprint == lib.drafts[a.draft].fingerprint ==>
                     lib.versions[i].status != Revoked
  }

  predicate ProperName(policy: Policy, name: string) {
    && name != "" && 'a' <= name[0] <= 'z' && name !in policy.staticNames
    && forall k | 0 <= k < |name| :: 'a' <= name[k] <= 'z' || '0' <= name[k] <= '9' || name[k] == '_'
  }

  /** Only the version being replaced bears the name before anyone who will see the
      new one. */
  ghost predicate NameFree(versions: map<Id, Version>, name: string, fingerprint: string, scope: Option<Session>) {
    forall i :: i in versions && versions[i].status == Enabled && versions[i].name == name
                && (scope.None? || versions[i].owner.None? || versions[i].owner == scope) ==>
                  versions[i].fingerprint == fingerprint && versions[i].owner == scope
  }

  // ----- the checks -----

  lemma VerifiedIff(fixtures: seq<Fixture>, o: Id)
    ensures o in VerifiedObservations(fixtures) <==> Verified(fixtures, o)
  {
    if Verified(fixtures, o) {
      assert Fixture(Some(o), true, true, true) in fixtures;
    }
  }

  lemma EvidencedIff(fixtures: seq<Fixture>, count: nat)
    ensures Evidenced(fixtures, count) <==> |VerifiedObservations(fixtures)| >= count
  {
    forall o
      ensures o in VerifiedObservations(fixtures) <==> Verified(fixtures, o)
    {
      VerifiedIff(fixtures, o);
    }
    hide VerifiedObservations, Verified;
    if seen: set<Id> :| |seen| >= count && forall o :: o in seen ==> Verified(fixtures, o) {
      FewerMembers(seen, VerifiedObservations(fixtures));
    }
  }

  lemma {:induction false} FewerMembers<T>(a: set<T>, b: set<T>)
    requires a <= b
    ensures |a| <= |b|
    decreases |a|
  {
    if a != {} {
      var x := SomeMember(a);
      FewerMembers(a - {x}, b - {x});
    }
  }

  lemma SufficesIff(policy: Policy, draft: Draft, scope: Option<Session>)
    ensures EvidenceSuffices(policy, draft, scope) <==> VerifiedCount(draft) >= RequiredCount(policy, draft, scope)
  {
    EvidencedIff(draft.fixtures, policy.floor);
    EvidencedIff(draft.fixtures, 1);
    EvidencedIff(draft.fixtures, draft.triggers);
    hide Evidenced, VerifiedObservations;
  }

  lemma ReportsIff(policy: Policy, draft: Draft, confirmed: bool, scope: Option<Session>)
    ensures Publishable(policy, draft, confirmed, scope) <==>
            confirmed && ReportsPass(policy, draft) && VerifiedCount(draft) >= RequiredCount(policy, draft, scope)
  {
    hide VerifiedCount, RequiredCount;
    if draft.validation.Some? && ReportsPass(policy, draft) {
      assert draft.validation.value.coverage == seq(draft.predicates, i => i);
    }
  }

  lemma FreeIff(versions: map<Id, Version>, name: string, fingerprint: string, scope: Option<Session>)
    requires UniqueNames(versions)
    ensures NameFree(versions, name, fingerprint, scope) <==>
            ReplacesOwn(versions, name, fingerprint, scope) || !NameReserved(versions, name, scope)
  {
    UniqueNamesIff(versions);
    hide UniqueNames;
    if ReplacesOwn(versions, name, fingerprint, scope) {
      var own :| own in versions && EnabledNamed(versions[own], name)
                 && versions[own].fingerprint == fingerprint && versions[own].owner == scope;
      forall i | i in versions && versions[i].status == Enabled && versions[i].name == name
                 && (scope.None? || versions[i].owner.None? || versions[i].owner == scope)
        ensures i == own
      {
        assert Collide(versions[i], versions[own]);
      }
    }
    if NameReserved(versions, name, scope) && NameFree(versions, name, fingerprint, scope) {
      var i :| i in versions && EnabledNamed(versions[i], name)
               && (scope.None? || versions[i].owner.None? || versions[i].owner == scope);
      assert versions[i].fingerprint == fingerprint && versions[i].owner == scope;
    }
  }

  lemma ProperIff(policy: Policy, name: string)
    ensures ProperName(policy, name) <==> WellFormedName(name) && name !in policy.staticNames
  {
    if WellFormedName(name) {
      assert forall k | 0 <= k < |name| :: name[k] in name;
    }
  }

  // ----- main results -----

  /** With named owners an approval goes through exactly when the draft is vetted and
      its name is proper and free. */
  lemma ApproveIff(policy: Policy, lib: Library, a: Approval)
    requires Inv(policy, lib) && a.version !in lib.versions && a.owner != Some("") && NamedOwners(lib.versions)
    ensures ApproveResult(policy, lib, a).Ok? <==>
            && Vetted(policy, lib, a) && ProperName(policy, a.name)
            && NameFree(lib.versions, a.name, lib.drafts[a.draft].fingerprint, if a.shared then None else a.owner)
  {
    PassesIff(policy, lib, a);
    hide ApprovalRefusal, Published, Inv, NamedOwners, IndexesHold, Vetted, ProperName, NameFree;
    if ApprovalRefusal(policy, lib, a).None? {
      ApprovalNeverLosesToIndexes(policy, lib, a);
    }
  }

  lemma PassesIff(policy: Policy, lib: Library, a: Approval)
    requires Inv(policy, lib)
    ensures ApprovalRefusal(policy, lib, a).None? <==>
            && Vetted(policy, lib, a) && ProperName(policy, a.name)
            && NameFree(lib.versions, a.name, lib.drafts[a.draft].fingerprint, if a.shared then None else a.owner)
  {
    if a.draft in lib.drafts {
      var draft, scope := lib.drafts[a.draft], a.Scope();
      SufficesIff(policy, draft, scope);
      ReportsIff(policy, draft, a.confirmed, scope);
      FreeIff(lib.versions, a.name, draft.fingerprint, scope);
      ProperIff(policy, a.name);
      hide Inv, Publishable, EvidenceSuffices, ReportsPass, VerifiedCount, RequiredCount, NameFree, ReplacesOwn, NameReserved,
        ProperName, WellFormedName;
    }
  }

  /** An approval disables exactly the enabled versions of the draft's fingerprint that
      its owner has, and for a shared version also the shared one; every other row stays
      as it was, and of the drafts only the approved one changes. */
  lemma ApprovedRows(policy: Policy, lib: Library, a: Approval, i: Id)
    requires a.version !in lib.versions && ApproveResult(policy, lib, a).Ok? && i in lib.versions
    ensures
      var n, v := ApproveResult(policy, lib, a).value, lib.versions[i];
      && i in n.versions && n.versions.Keys == lib.versions.Keys + {a.version}
      && n.versions[i]
         == (if v.status == Enabled && v.fingerprint == lib.drafts[a.draft].fingerprint
                && (v.owner == a.owner || (a.shared && v.owner == None))
             then Version(v.name, v.fingerprint, v.draft, v.artifact, Disabled, v.owner) else v)
      && n.drafts == lib.drafts[a.draft := lib.drafts[a.draft].(status := Approved)]
  {
    hide ApprovalRefusal, IndexesHold;
  }

  /** Every version in a reachable library was entered, as it then was, by one
      approval of a draft that was vetted under a proper name. */
  lemma {:induction false} EveryVersionWasVetted(policy: Policy, libs: seq<Library>, steps: seq<Step>, k: nat, i: Id)
    returns (j: nat)
    requires Run(policy, libs, steps) && k < |libs| && i in libs[k].versions
    ensures j < k && j < |steps| && steps[j].Approve? && steps[j].approval.version == i && i !in libs[j].versions
    ensures
      var a := steps[j].approval;
      && Vetted(policy, libs[j], a) && ProperName(policy, a.name) && i in libs[j + 1].versions
      && libs[j + 1].versions[i]
         == Version(a.name, libs[j].drafts[a.draft].fingerprint, a.draft, libs[j].drafts[a.draft].artifact, Enabled,
                    if a.shared then None else a.owner)
    decreases k
  {
    if i in libs[k - 1].versions {
      j := EveryVersionWasVetted(policy, libs, steps, k - 1, i);
    } else {
      j := k - 1;
      RunKeeps(policy, libs, steps, j);
      Entered(policy, libs[j], steps[j], i);
    }
  }

  lemma Entered(policy: Policy, lib: Library, s: Step, i: Id)
    requires Inv(policy, lib) && Possible(lib, s) && i !in lib.versions && i in Next(policy, lib, s).versions
    ensures s.Approve? && s.approval.version == i
    ensures
      var a := s.approval;
      && Vetted(policy, lib, a) && ProperName(policy, a.name)
      && Next(policy, lib, s).versions[i]
         == Version(a.name, lib.drafts[a.draft].fingerprint, a.draft, lib.drafts[a.draft].artifact, Enabled,
                    if a.shared then None else a.owner)
  {
    if s.Approve? {
      PassesIff(policy, lib, s.approval);
    }
    hide ApprovalRefusal, Inv, IndexesHold, Vetted, ProperName, NameFree;
  }

  /** With named owners a promotion goes through exactly for an enabled private
      version with full evidence, when no other enabled version bears its name and no
      shared one its fingerprint. */
  lemma PromoteIff(policy: Policy, lib: Library, id: Id)
    requires Inv(policy, lib) && NamedOwners(lib.versions)
    ensures PromoteResult(policy, lib, id).Ok? <==>
            && id in lib.versions && lib.versions[id].status == Enabled && lib.versions[id].owner.Some?
            && Evidenced(lib.drafts[lib.versions[id].draft].fixtures, policy.floor)
            && forall i :: i in lib.versions && i != id && lib.versions[i].status == Enabled ==>
                             && lib.versions[i].name != lib.versions[id].name
                             && (lib.versions[i].owner.Some? || lib.versions[i].fingerprint != lib.versions[id].fingerprint)
  {
    if id in lib.versions {
      var v := lib.versions[id];
      EvidencedIff(lib.drafts[v.draft].fixtures, policy.floor);
      UniqueMeansIndexed(lib.versions);
      hide Inv, UniqueNames, OnePerFingerprint, SharedEvidence, Evidenced, VerifiedObservations;
      if v.status == Enabled && v.owner.Some? {
        NamesClearIff(lib.versions, id);
        PromotedFits(lib.versions, id);
      }
    }
  }

  predicate Clear(versions: map<Id, Version>, id: Id)
    requires id in versions
  {
    forall i | i in versions && i != id && versions[i].status == Enabled ::
      && versions[i].name != versions[id].name
      && (versions[i].owner.Some? || versions[i].fingerprint != versions[id].fingerprint)
  }

  lemma NamesClearIff(versions: map<Id, Version>, id: Id)
    requires id in versions && versions[id].status == Enabled && versions[id].owner.Some?
    ensures Clear(versions, id) <==>
            !(NameTakenShared(versions, versions[id].name) || NameHeldPrivately(versions, versions[id].name, id)
              || FingerprintShared(versions, versions[id].fingerprint))
  {
  }

  lemma PromotedFits(versions: map<Id, Version>, id: Id)
    requires id in versions && IndexesHold(versions) && NamedOwners(versions)
    ensures Clear(versions, id) ==> IndexesHold(versions[id := versions[id].(owner := None)])
  {
  }
}
