/** Fan-out branches: registration, the owned-branch worker, and the counted join. */
module Branch {
  import opened Common
  import opened Spine
  import opened Database
  import opened SpineAlone
  import opened SpineEffects
  import DeadLetter
  import Stage

  method RegisterBranches(db: Db, id: UnitId, list: seq<NewBranch>, now: int)
    requires id in db.units
    modifies db`units
    ensures db.units == old(db.units)[id := old(db.units)[id].(
                                        branches := Spine.RegisterBranches(old(db.units)[id].branches, list, now))]
  {
    assert list[..0] == [];
    for i := 0 to |list|
      invariant id in db.units
      invariant db.units == old(db.units)[
                              id := old(db.units)[id].(
                                branches := Spine.RegisterBranches(old(db.units)[id].branches, list[..i], now))]
    {
      var u := db.units[id];
      var b := list[i];
      assert list[..i + 1][..i] == list[..i];
      if b.key !in u.branches {
        db.units := db.units[id := u.(branches := u.branches[b.key := BranchRow(b.kind, BranchPending, 0, now)])];
      }
    }
    assert list[..|list|] == list;
  }

  method CompleteBranchLocked(db: Db, id: UnitId, key: BranchKey, now: int) returns (decision: JoinDecision)
    modifies db`units
    ensures id !in old(db.units) ==> decision == JoinPending && db.units == old(db.units)
    ensures id in old(db.units) ==>
              var (u, d) := Spine.CompleteBranchLocked(old(db.units)[id], key, now);
              decision == d && db.units == old(db.units)[id := u]
  {
    if id !in db.units {
      return JoinPending;
    }
    var u := db.units[id];
    if key !in u.branches || u.branches[key].status != BranchPending {
      return JoinPending;
    }
    u := u.(branches := u.branches[key := u.branches[key].(status := BranchCompleted, updatedAt := now)]);
    db.units := db.units[id := u];
    var remaining := |OpenBranches(u)|;
    return if remaining == 0 then CompletedNow else JoinPending;
  }

  /** Noting a failure spends one attempt of an open branch and moves its clock. It changes no status, so it neither
    * closes the branch nor reopens a closed one, and it touches no sibling, no stage row, no result, no triage row and
    * no other unit. */
  method FailBranch(db: Db, id: UnitId, key: BranchKey, now: int)
    modifies db`units
    ensures db.units.Keys == old(db.units).Keys
    ensures forall other <- old(db.units) :: other != id ==> db.units[other] == old(db.units)[other]
    ensures id in old(db.units) ==>
              var u, u' := old(db.units)[id], db.units[id];
              && u' == Spine.FailBranch(u, key, now)
              && u' == u.(branches := u'.branches) && u'.branches.Keys == u.branches.Keys
              && (forall k <- u.branches ::
                    && u'.branches[k].status == u.branches[k].status && u'.branches[k].kind == u.branches[k].kind
                    && (k != key || u.branches[k].status != BranchPending ==> u'.branches[k] == u.branches[k])
                    && (k == key && u.branches[k].status == BranchPending ==>
                          && u'.branches[k].attempts == u.branches[k].attempts + 1
                          && u'.branches[k].updatedAt == now))
  {
    if id !in db.units {
      return;
    }
    var u := db.units[id];
    if key in u.branches && u.branches[key].status == BranchPending {
      var row := u.branches[key];
      var spent := row.(attempts := row.attempts + 1, updatedAt := now);
      db.units := db.units[id := u.(branches := u.branches[key := spent])];
    }
  }

  method ClaimBranch(db: Db, id: UnitId, key: BranchKey, ceiling: nat, now: int) returns (outcome: ClaimOutcome)
    modifies db`units, db`strayLetters
    ensures db.strayLetters == old(db.strayLetters)
    ensures id !in old(db.units) ==> outcome == NotFound && db.units == old(db.units)
    ensures id in old(db.units) ==>
              var (u, o) := Spine.ClaimBranch(old(db.units)[id], key, ceiling, now);
              outcome == o && db.units == old(db.units)[id := u]
  {
    if id !in db.units {
      return NotFound;
    }
    var u := db.units[id];
    if key !in u.branches {
      return NotFound;
    }
    var row := u.branches[key];
    if row.status == BranchCompleted {
      return ReplayNoOp;
    }
    if row.status == BranchFailed {
      return AlreadyFailed;
    }
    db.units := db.units[id := u.(branches := u.branches[key := row.(attempts := row.attempts + 1, updatedAt := now)])];
    if ClaimReachedCeiling(row.attempts + 1, ceiling) {
      DeadLetter.WriteDeadLetter(db, id, Some(key), row.attempts + 1, now);
      return CeilingReached;
    }
    return Claimed(row.attempts + 1);
  }

  datatype BranchCompletion = BranchNotFound | BranchTooLate | BranchDone(decision: JoinDecision)

  predicate HasBranch(units: Tables, id: UnitId, key: BranchKey) {
    id in units && key in units[id].branches
  }

  /** Status re-check, the caller's writes, then the guarded completion, in one transaction. */
  method CompleteBranchWithApply(db: Db, id: UnitId, key: BranchKey, payload: Payload, now: int)
    returns (completion: BranchCompletion)
    modifies db`units, db`domain
    ensures !HasBranch(old(db.units), id, key) ==>
              completion == BranchNotFound && db.units == old(db.units) && db.domain == old(db.domain)
    ensures HasBranch(old(db.units), id, key) && old(db.units)[id].branches[key].status == BranchFailed ==>
              completion == BranchTooLate && db.units == old(db.units) && db.domain == old(db.domain)
    ensures HasBranch(old(db.units), id, key) && old(db.units)[id].branches[key].status != BranchFailed ==>
              var (u, d) := Spine.CompleteBranchLocked(old(db.units)[id], key, now);
              && completion == BranchDone(d)
              && db.units == old(db.units)[id := u]
              && db.domain == old(db.domain) + [Application(id, OfBranch(key), payload)]
  {
    if !HasBranch(db.units, id, key) {
      return BranchNotFound;
    }
    if db.units[id].branches[key].status == BranchFailed {
      return BranchTooLate;
    }
    db.domain := db.domain + [Application(id, OfBranch(key), payload)];
    var decision := CompleteBranchLocked(db, id, key, now);
    return BranchDone(decision);
  }

  /** The branch completed: its siblings are as they were, and the join closed exactly if none of them is open. */
  ghost predicate ClosedBranch(u: Unit, u': Unit, key: BranchKey, joined: bool)
    requires key in u.branches
  {
    && key in u'.branches && u'.branches[key].status == BranchCompleted && u'.status == u.status
    && (forall k <- u.branches :: k != key ==> k in u'.branches && u'.branches[k] == u.branches[k])
    && (joined <==> forall k <- u.branches :: k != key ==> u.branches[k].status != BranchPending)
  }

  lemma ClosingDecides(u: Unit, key: BranchKey, now: int)
    requires key in u.branches && u.branches[key].status == BranchPending
    ensures var (u', decision) := Spine.CompleteBranchLocked(u, key, now);
            ClosedBranch(u, u', key, decision == CompletedNow)
  {
    var (u', decision) := Spine.CompleteBranchLocked(u, key, now);
    assert decision == CompletedNow <==> OpenBranches(u') == {};
    assert forall k <- u.branches :: k != key ==> (k in OpenBranches(u') <==> u.branches[k].status == BranchPending);
    assert forall k <- OpenBranches(u') :: k in u.branches && k != key;
  }

  /** The steps behind the claim: read or call and write ahead, then complete. */
  method RunClaimedBranch(db: Db, id: UnitId, key: BranchKey, attempts: nat, provider: Provider, now: int)
    returns (outcome: Stage.RunOutcome, called: bool, joined: bool)
    requires HasBranch(db.units, id, key) && db.units[id].branches[key].status == BranchPending
    modifies db
    ensures id in db.units && db.units == old(db.units)[id := db.units[id]] && db.strayLetters == old(db.strayLetters)
    ensures db.units[id] == AfterClaim(old(db.units)[id], OfBranch(key), attempts, provider, now)
    ensures var u, u' := old(db.units)[id], db.units[id];
            && called == (OfBranch(key) !in u.results)
            && key in u'.branches && u'.branches[key].attempts == u.branches[key].attempts
            && (if !called || provider.Returns? then
                  && outcome == Stage.RunCompleted && ClosedBranch(u, u', key, joined)
                  && u'.results
                     == u.results[OfBranch(key) := if called then provider.payload else u.results[OfBranch(key)]]
                  && db.domain == old(db.domain) + [Application(id, OfBranch(key), u'.results[OfBranch(key)])]
                else
                  && outcome == Stage.RunThrew && !joined && db.domain == old(db.domain) && u'.results == u.results
                  && (if provider.ThrowsTerminal?
                      then u'.status == Failed && LetterRecords(u, u', Some(key), attempts) && OpenBranches(u') == {}
                      else u' == u))
  {
    called, joined := false, false;
    var existing := Stage.ReadAttemptResult(db, id, OfBranch(key));
    var result;
    if existing.Some? {
      result := existing.value;
    } else {
      called := true;
      var returned := Stage.PerformExternalCallWithRouting(db, id, OfBranch(key), attempts, provider, now);
      if returned.None? {
        return Stage.RunThrew, called, joined;
      }
      result := Stage.WriteAttemptResult(db, id, OfBranch(key), returned.value);
    }
    ClosingDecides(db.units[id], key, now);
    var completion := CompleteBranchWithApply(db, id, key, result, now);
    if completion == BranchTooLate {
      return Stage.RunAlreadyFailed, called, joined;
    }
    joined := completion.decision == CompletedNow;
    return Stage.RunCompleted, called, joined;
  }

  /** One undisturbed run of an owned branch. `joined` reports that this run fired the join continuation. */
  method RunPipelineBranch(db: Db, id: UnitId, key: BranchKey, ceiling: nat, provider: Provider, now: int)
    returns (outcome: Stage.RunOutcome, called: bool, joined: bool)
    modifies db
    ensures db.units.Keys == old(db.units).Keys && db.strayLetters == old(db.strayLetters)
    ensures forall other <- old(db.units) :: other != id ==> db.units[other] == old(db.units)[other]
    ensures id in old(db.units)
            ==> db.units[id] == AloneResult(old(db.units)[id], OfBranch(key), ceiling, provider, now)
    ensures !HasBranch(old(db.units), id, key) ==>
              && outcome == Stage.RunNotFound && !called && !joined
              && db.units == old(db.units) && db.domain == old(db.domain)
    ensures HasBranch(old(db.units), id, key) ==>
              var u, u' := old(db.units)[id], db.units[id];
              var row := u.branches[key];
              match row.status
              case BranchCompleted =>
                outcome == Stage.RunReplayed && !called && !joined && u' == u && db.domain == old(db.domain)
              case BranchFailed =>
                outcome == Stage.RunAlreadyFailed && !called && !joined && u' == u && db.domain == old(db.domain)
              case BranchPending =>
                if row.attempts >= ceiling then
                  && outcome == Stage.RunThrew && !called && !joined && db.domain == old(db.domain)
                  && u'.status == Failed && LetterRecords(u, u', Some(key), row.attempts + 1) && OpenBranches(u') == {}
                else
                  && called == (OfBranch(key) !in u.results)
                  && key in u'.branches && u'.branches[key].attempts == row.attempts + 1
                  && (if !called || provider.Returns? then
                        && outcome == Stage.RunCompleted && ClosedBranch(u, u', key, joined)
                        && u'.results
                           == u.results[OfBranch(key) := if called then provider.payload else u.results[OfBranch(key)]]
                        && db.domain == old(db.domain) + [Application(id, OfBranch(key), u'.results[OfBranch(key)])]
                      else
                        && outcome == Stage.RunThrew && !joined
                        && db.domain == old(db.domain) && u'.results == u.results
                        && (if provider.ThrowsTerminal?
                            then
                              && u'.status == Failed && LetterRecords(u, u', Some(key), row.attempts + 1)
                              && OpenBranches(u') == {}
                            else
                              && u'.status == u.status
                              && u'.branches[key].status == BranchPending && u'.letters == u.letters))
  {
    called, joined := false, false;
    var claim := ClaimBranch(db, id, key, ceiling, now);
    match claim {
      case NotFound =>
        outcome := Stage.RunNotFound;
      case ReplayNoOp =>
        outcome := Stage.RunReplayed;
      case AlreadyFailed =>
        outcome := Stage.RunAlreadyFailed;
      case CeilingReached =>
        outcome := Stage.RunThrew;
      case Claimed(attempts) =>
        outcome, called, joined := RunClaimedBranch(db, id, key, attempts, provider, now);
    }
  }
}
