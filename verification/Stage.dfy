/** The six-step stage worker, one attempt at a time (SpineRuns.dfy has the interleavings). */
module Stage {
  import opened Common
  import opened Spine
  import opened Database
  import opened SpineAlone
  import opened SpineEffects
  import DeadLetter

  method ClaimStage(db: Db, id: UnitId, ceiling: nat, now: int) returns (outcome: ClaimOutcome)
    modifies db`units, db`strayLetters
    ensures db.strayLetters == old(db.strayLetters)
    ensures id !in old(db.units) ==> outcome == NotFound && db.units == old(db.units)
    ensures id in old(db.units) ==>
              var (u, o) := Spine.ClaimStage(old(db.units)[id], ceiling, now);
              outcome == o && db.units == old(db.units)[id := u]
  {
    if id !in db.units {
      return NotFound;
    }
    var u := db.units[id];
    if u.status == Completed {
      return ReplayNoOp;
    }
    if u.status == Failed {
      return AlreadyFailed;
    }
    var attempts := u.attempts + 1;
    db.units := db.units[id := u.(status := InProgress, attempts := attempts, updatedAt := now)];
    if ClaimReachedCeiling(attempts, ceiling) {
      DeadLetter.WriteDeadLetter(db, id, None, attempts, now);
      return CeilingReached;
    }
    return Claimed(attempts);
  }

  method ReadAttemptResult(db: Db, id: UnitId, t: Target) returns (found: Option<Payload>)
    requires id in db.units
    ensures found == if t in db.units[id].results then Some(db.units[id].results[t]) else None
  {
    if t in db.units[id].results {
      return Some(db.units[id].results[t]);
    }
    return None;
  }

  /** Insert-if-absent, then the row that exists is carried forward. */
  method WriteAttemptResult(db: Db, id: UnitId, t: Target, payload: Payload) returns (written: Payload)
    requires id in db.units
    modifies db`units
    ensures db.units == old(db.units)[id := Spine.WriteAttemptResult(old(db.units)[id], t, payload)]
    ensures t in db.units[id].results && written == db.units[id].results[t]
    ensures written == if t in old(db.units)[id].results then old(db.units)[id].results[t] else payload
  {
    var u := db.units[id];
    if t !in u.results {
      db.units := db.units[id := u.(results := u.results[t := payload])];
    }
    written := db.units[id].results[t];
  }

  datatype CompletionOutcome = NoRow | Done | TooLate

  method CompleteStage(db: Db, id: UnitId, hook: Option<Payload>, now: int) returns (outcome: CompletionOutcome)
    modifies db`units, db`domain
    ensures id !in old(db.units) ==> outcome == NoRow && db.units == old(db.units) && db.domain == old(db.domain)
    ensures id in old(db.units) && old(db.units)[id].status == Failed ==>
              outcome == TooLate && db.units == old(db.units) && db.domain == old(db.domain)
    ensures id in old(db.units) && old(db.units)[id].status != Failed ==>
              && outcome == Done
              && db.units == old(db.units)[id := FlipStageCompleted(old(db.units)[id], now)]
              && db.domain == old(db.domain) + (if hook.Some? then [Application(id, OfStage, hook.value)] else [])
  {
    if id !in db.units {
      return NoRow;
    }
    var u := db.units[id];
    if u.status == Failed {
      return TooLate;
    }
    if hook.Some? {
      db.domain := db.domain + [Application(id, OfStage, hook.value)];
    }
    if u.status == InProgress {
      db.units := db.units[id := u.(status := Completed, updatedAt := now)];
    }
    return Done;
  }

  datatype RunOutcome = RunNotFound | RunCompleted | RunReplayed | RunAlreadyFailed | RunThrew

  /** performExternalCallWithRouting, with the throw it ends in made a value. A terminal throw closes the unit whatever
    * its status: the stage is Failed, its triage row exists and no branch is open. */
  method PerformExternalCallWithRouting(
    db: Db, id: UnitId, t: Target, attempts: nat, provider: Provider, now: int) returns (result: Option<Payload>)
    requires id in db.units
    modifies db`units, db`strayLetters
    ensures db.strayLetters == old(db.strayLetters)
    ensures result == if provider.Returns? then Some(provider.payload) else None
    ensures db.units == if provider.ThrowsTerminal?
                        then old(db.units)[id := Spine.WriteDeadLetter(old(db.units)[id], LetterKey(t), attempts, now)]
                        else old(db.units)
    ensures provider.ThrowsTerminal? ==>
              db.units[id].status == Failed && LetterKey(t) in db.units[id].letters && OpenBranches(db.units[id]) == {}
  {
    if provider.Returns? {
      return Some(provider.payload);
    }
    if provider.ThrowsTerminal? {
      DeadLetter.DeadLetterCloses(db.units[id], LetterKey(t), attempts, attempts, now);
      DeadLetter.WriteDeadLetter(db, id, LetterKey(t), attempts, now);
    }
    return None;
  }

  /** One undisturbed run of the six steps. `called` reports a begun external call, `ensured` a successor re-ensure. */
  method RunPipelineStage(db: Db, id: UnitId, ceiling: nat, provider: Provider, now: int)
    returns (outcome: RunOutcome, called: bool, ensured: bool)
    modifies db
    ensures db.units.Keys == old(db.units).Keys && db.strayLetters == old(db.strayLetters)
    ensures forall other <- old(db.units) :: other != id ==> db.units[other] == old(db.units)[other]
    ensures id !in old(db.units) ==> outcome == RunNotFound && !called && !ensured && db.domain == old(db.domain)
    ensures id in old(db.units) ==> db.units[id] == AloneResult(old(db.units)[id], OfStage, ceiling, provider, now)
    ensures id in old(db.units) ==>
              var u, u' := old(db.units)[id], db.units[id];
              match u.status
              case Completed =>
                outcome == RunReplayed && !called && ensured && u' == u && db.domain == old(db.domain)
              case Failed =>
                outcome == RunAlreadyFailed && !called && !ensured && u' == u && db.domain == old(db.domain)
              case _ =>
                if u.attempts >= ceiling then
                  && outcome == RunThrew && !called && !ensured && db.domain == old(db.domain)
                  && u'.status == Failed && LetterRecords(u, u', None, u.attempts + 1) && u'.attempts == u.attempts + 1
                else
                  && u'.attempts == u.attempts + 1
                  && called == (OfStage !in u.results)
                  && (if !called || provider.Returns? then
                        && outcome == RunCompleted && ensured
                        && u'.status == Completed
                        && OfStage in u'.results
                        && u'.results == u.results[OfStage := if called then provider.payload else u.results[OfStage]]
                        && db.domain == old(db.domain) + [Application(id, OfStage, u'.results[OfStage])]
                      else
                        && outcome == RunThrew && !ensured && db.domain == old(db.domain)
                        && (if provider.ThrowsTerminal?
                            then u'.status == Failed && LetterRecords(u, u', None, u.attempts + 1)
                            else u'.status == InProgress && u'.letters == u.letters)
                        && u'.results == u.results)
  {
    called, ensured := false, false;
    var claim := ClaimStage(db, id, ceiling, now);
    if claim == NotFound {
      return RunNotFound, called, ensured;
    }
    if claim == ReplayNoOp {
      return RunReplayed, called, true;
    }
    if claim == AlreadyFailed {
      return RunAlreadyFailed, called, ensured;
    }
    if !claim.Claimed? {
      return RunThrew, called, ensured;
    }
    var existing := ReadAttemptResult(db, id, OfStage);
    var result;
    if existing.Some? {
      result := existing.value;
    } else {
      called := true;
      var returned := PerformExternalCallWithRouting(db, id, OfStage, claim.attempts, provider, now);
      if returned.None? {
        return RunThrew, called, ensured;
      }
      result := WriteAttemptResult(db, id, OfStage, returned.value);
    }
    var completion := CompleteStage(db, id, Some(result), now);
    if completion == TooLate {
      return RunAlreadyFailed, called, ensured;
    }
    return RunCompleted, called, true;
  }
}
