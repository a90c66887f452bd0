/** writeDeadLetter: the one transaction that closes a stage and its open branches. */
module DeadLetter {
  import opened Common
  import opened Spine
  import opened Database
  import opened SpineEffects

  /** Without an instance row the two updates match nothing, and the triage row is still written. */
  method WriteDeadLetter(db: Db, id: UnitId, branchKey: Option<BranchKey>, attempts: nat, now: int)
    modifies db`units, db`strayLetters
    ensures id in old(db.units) ==>
              && db.units == old(db.units)[id := Spine.WriteDeadLetter(old(db.units)[id], branchKey, attempts, now)]
              && db.strayLetters == old(db.strayLetters)
    ensures id !in old(db.units) ==>
              && db.units == old(db.units)
              && db.strayLetters
                 == old(db.strayLetters)[id := AddLetter(StrayLettersOf(old(db.strayLetters), id), branchKey, attempts)]
  {
    if id !in db.units {
      var stray := StrayLettersOf(db.strayLetters, id);
      if branchKey !in stray {
        stray := stray[branchKey := attempts];
      }
      db.strayLetters := db.strayLetters[id := stray];
      return;
    }
    var u := db.units[id];
    if branchKey !in u.letters {
      u := u.(letters := u.letters[branchKey := attempts]);
    }
    u := u.(status := Failed, updatedAt := now);
    u := u.(branches := FailOpenBranches(u.branches, now));
    db.units := db.units[id := u];
  }

  function StrayLettersOf(stray: map<UnitId, Letters>, id: UnitId): Letters {
    if id in stray then stray[id] else map[]
  }

  /** A dead letter closes the stage for good: the triage row records the attempts, the stage and its open branches
    * fail at that moment, finished branches and every counter are untouched, nothing is left open, and writing the
    * letter again changes no triage row and no status. */
  lemma DeadLetterCloses(u: Unit, branchKey: Option<BranchKey>, attempts: nat, again: nat, now: int)
    ensures var u' := Spine.WriteDeadLetter(u, branchKey, attempts, now);
            && Struck(u, u', branchKey, attempts, now)
            && (forall t :: AttemptsOf(u', t) == AttemptsOf(u, t))
            && OpenBranches(u') == {}
            && Spine.WriteDeadLetter(u', branchKey, again, now) == u'
  {
    var u' := Spine.WriteDeadLetter(u, branchKey, attempts, now);
    assert forall k <- u'.branches :: u'.branches[k].status != BranchPending;
    assert FailOpenBranches(u'.branches, now) == u'.branches;
  }
}
