/** Attempt tokens: the write-ahead table is keyed by (instance, token), so a unit's rows are its own only if the
  * tokens of different units differ. */
module AttemptTokens {
  import opened Spine

  /** '{stage}' for a stage, '{stage}:{branchKey}' for one of its branches. */
  function TokenOf(stage: string, t: Target): string {
    match t
    case OfStage => stage
    case OfBranch(key) => stage + ":" + key
  }

  /** `longer` continues `stage` after a colon, as a branch token of `stage` would. */
  predicate ReadsAsBranchOf(longer: string, stage: string) {
    stage + ":" <= longer
  }

  lemma EqualTokensNeedACollision(s: string, t: Target, s': string, t': Target)
    requires TokenOf(s, t) == TokenOf(s', t') && !ReadsAsBranchOf(s, s') && !ReadsAsBranchOf(s', s)
    ensures s == s' && t == t'
  {
    var token := TokenOf(s, t);
    assert t.OfBranch? ==> token[..|s|] == s && token[..|s| + 1] == s + ":" && token[|s| + 1..] == t.key;
    assert t'.OfBranch? ==> token[..|s'|] == s' && token[..|s'| + 1] == s' + ":" && token[|s'| + 1..] == t'.key;
  }

  /** The tokens of a pipeline's stages and of whatever branches they fan out to never collide, exactly when no stage
    * name reads as a branch token of another stage. */
  lemma TokensStayApartIff(stages: set<string>)
    ensures (forall s, t, s', t' ::
            s in stages && s' in stages && TokenOf(s, t) == TokenOf(s', t') ==> s == s' && t == t')
            <==> (forall s, s' :: s in stages && s' in stages ==> !ReadsAsBranchOf(s, s'))
  {
    if forall s, s' :: s in stages && s' in stages ==> !ReadsAsBranchOf(s, s') {
      forall s, t, s', t' | s in stages && s' in stages && TokenOf(s, t) == TokenOf(s', t')
        ensures s == s' && t == t'
      {
        EqualTokensNeedACollision(s, t, s', t');
      }
    } else {
      var s, s' :| s in stages && s' in stages && ReadsAsBranchOf(s, s');
      var key := s[|s'| + 1..];
      assert TokenOf(s, OfStage) == TokenOf(s', OfBranch(key));
    }
  }

  lemma ColonInside(longer: string, stage: string)
    ensures ReadsAsBranchOf(longer, stage) ==> |stage| < |longer| && longer[|stage|] == ':'
  {
    assert (stage + ":")[|stage|] == ':';
  }

  /** ^[a-z][a-z0-9_]*$, which every stage name of a contract has to match. */
  predicate IsIdentifier(s: string) {
    && s != "" && 'a' <= s[0] <= 'z'
    && forall i :: 0 <= i < |s| ==> 'a' <= s[i] <= 'z' || '0' <= s[i] <= '9' || s[i] == '_'
  }

  /** So the tokens of a valid contract never collide, whatever its branch keys contain, colons included. */
  lemma ValidStagesKeepTokensApart(s: string, t: Target, s': string, t': Target)
    requires IsIdentifier(s) && IsIdentifier(s') && TokenOf(s, t) == TokenOf(s', t')
    ensures s == s' && t == t'
  {
    ColonInside(s, s');
    ColonInside(s', s);
    EqualTokensNeedACollision(s, t, s', t');
  }
}
