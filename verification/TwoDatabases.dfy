/**
 Committing a user effect together with its record.  What is recorded per workflow position
 in the database that holds the effects, and which effects were committed there.
 */
module TwoDatabases {
  import opened Values

  datatype Key = Key(workflow: string, position: nat)

  /** A committed user effect: the work of the function call that returned `output`. */
  datatype Effect = Effect(key: Key, output: string)

  /** How the answer to a commit arrives; a connection can be lost after the commit. */
  datatype Delivery = Arrives | LostRetriable | LostFatal(error: string)

  /** The effects of one position, in commit order. */
  function EffectsOf(effects: seq<Effect>, key: Key): seq<string> {
    if effects == [] then []
    else
      var last := effects[|effects| - 1];
      EffectsOf(effects[..|effects| - 1], key) + if last.key == key then [last.output] else []
  }

  function RecordedOutput(outcomes: map<Key, Outcome>, key: Key): seq<string> {
    if key in outcomes && outcomes[key].Output? then [outcomes[key].value] else []
  }

  /** Each position has its effect once if its output is recorded, the effect of that very call, and none otherwise. */
  ghost predicate OutputsAreEffects(outcomes: map<Key, Outcome>, effects: seq<Effect>) {
    forall key :: EffectsOf(effects, key) == RecordedOutput(outcomes, key)
  }

  lemma EffectThen(effects: seq<Effect>, effect: Effect, key: Key)
    ensures EffectsOf(effects + [effect], key) ==
            EffectsOf(effects, key) + if effect.key == key then [effect.output] else []
  {
    assert (effects + [effect])[..|effects|] == effects;
  }

  lemma CommitTogether(outcomes: map<Key, Outcome>, effects: seq<Effect>, key: Key, output: string)
    requires OutputsAreEffects(outcomes, effects) && key !in outcomes
    ensures OutputsAreEffects(outcomes[key := Output(output)], effects + [Effect(key, output)])
  {
    forall k
      ensures EffectsOf(effects + [Effect(key, output)], k) == RecordedOutput(outcomes[key := Output(output)], k)
    {
      EffectThen(effects, Effect(key, output), k);
      assert EffectsOf(effects, k) == RecordedOutput(outcomes, k);
    }
  }

  lemma CommitFailure(outcomes: map<Key, Outcome>, effects: seq<Effect>, key: Key, error: string)
    requires OutputsAreEffects(outcomes, effects) && key !in outcomes
    ensures OutputsAreEffects(outcomes[key := Error(error)], effects)
  {
    forall k ensures EffectsOf(effects, k) == RecordedOutput(outcomes[key := Error(error)], k) {
      assert EffectsOf(effects, k) == RecordedOutput(outcomes, k);
    }
  }
}
