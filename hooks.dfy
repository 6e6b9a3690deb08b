/** Hooks: named string transforms that rewrite an item's value. The source resolves a hook name in
    the module's global scope; here the registry is an explicit map that holds only `slugify`. */
module Hooks {
  import opened Results
  import Slug

  type Transform = string -> string

  const Registry: map<string, Transform> := map["slugify" := Slug.Slugify]

  /** The value after running hooks, and whether every hook was found. */
  datatype Hooked = Hooked(value: string, outcome: Outcome)

  /** Runs `hooks` in list order on `v`. At the first name missing from `reg` the run stops with
      `UnknownHook`, keeping the value the hooks before it produced. */
  function Apply(reg: map<string, Transform>, hooks: seq<string>, v: string): Hooked
    decreases |hooks|
  {
    if hooks == [] then Hooked(v, Pass)
    else
      var before := Apply(reg, hooks[..|hooks| - 1], v);
      var h := hooks[|hooks| - 1];
      if before.outcome.Fail? then before
      else if h in reg then Hooked(reg[h](before.value), Pass)
      else Hooked(before.value, Fail(UnknownHook(h)))
  }

  /** Applying hooks is a left fold in list order: the first hook sees the original value. */
  lemma {:induction false} ApplyIsLeftFold(reg: map<string, Transform>, h: string, rest: seq<string>, v: string)
    ensures Apply(reg, [h] + rest, v)
            == if h in reg then Apply(reg, rest, reg[h](v)) else Hooked(v, Fail(UnknownHook(h)))
    decreases |rest|
  {
    if rest != [] {
      var front := rest[..|rest| - 1];
      assert ([h] + rest)[..|rest|] == [h] + front;
      ApplyIsLeftFold(reg, h, front, v);
    }
  }

  /** Every hook runs without error exactly when every name is registered. */
  lemma {:induction false} ApplySucceedsIff(reg: map<string, Transform>, hooks: seq<string>, v: string)
    ensures Apply(reg, hooks, v).outcome == Pass <==> forall i :: 0 <= i < |hooks| ==> hooks[i] in reg
    decreases |hooks|
  {
    if hooks != [] {
      var front := hooks[..|hooks| - 1];
      ApplySucceedsIff(reg, front, v);
      assert forall i :: 0 <= i < |front| ==> front[i] == hooks[i];
    }
  }

  /** Once a prefix of the hooks has failed, the hooks after it change nothing. */
  lemma {:induction false} ApplyStopsAtFailure(reg: map<string, Transform>, hooks: seq<string>, j: nat, v: string)
    requires j <= |hooks|
    requires Apply(reg, hooks[..j], v).outcome.Fail?
    ensures Apply(reg, hooks, v) == Apply(reg, hooks[..j], v)
    decreases |hooks| - j
  {
    if j < |hooks| {
      var front := hooks[..|hooks| - 1];
      assert front[..j] == hooks[..j];
      ApplyStopsAtFailure(reg, front, j, v);
    } else {
      assert hooks[..j] == hooks;
    }
  }

  /** A run that meets an unregistered name fails naming the first such hook, with the value that the
      registered hooks before it produced. */
  lemma ApplyFailsAtFirstUnknown(reg: map<string, Transform>, hooks: seq<string>, k: nat, v: string)
    requires k < |hooks| && hooks[k] !in reg
    requires forall i :: 0 <= i < k ==> hooks[i] in reg
    ensures Apply(reg, hooks[..k], v).outcome == Pass
    ensures Apply(reg, hooks, v) == Hooked(Apply(reg, hooks[..k], v).value, Fail(UnknownHook(hooks[k])))
  {
    ApplySucceedsIff(reg, hooks[..k], v);
    assert hooks[..k + 1][..k] == hooks[..k];
    ApplyStopsAtFailure(reg, hooks, k + 1, v);
  }

  /** Whether hooks fail does not depend on the value they run on. */
  lemma {:induction false} ApplyOutcomeIgnoresValue(reg: map<string, Transform>, hooks: seq<string>, v: string, w: string)
    ensures Apply(reg, hooks, v).outcome == Apply(reg, hooks, w).outcome
    decreases |hooks|
  {
    if hooks != [] {
      ApplyOutcomeIgnoresValue(reg, hooks[..|hooks| - 1], v, w);
    }
  }

  /** With the registry of this module, a run produces the slug of the value as soon as the first
      hook is registered, and the value itself otherwise. */
  lemma {:induction false} RegistryApplyValue(hooks: seq<string>, v: string)
    ensures Apply(Registry, hooks, v).value
            == if |hooks| > 0 && hooks[0] in Registry then Slug.Slugify(v) else v
    decreases |hooks|
  {
    if hooks != [] {
      var front := hooks[..|hooks| - 1];
      RegistryApplyValue(front, v);
      var before := Apply(Registry, front, v);
      if before.outcome.Pass? && |front| > 0 {
        ApplySucceedsIff(Registry, front, v);
        assert front[0] in Registry;
        Slug.SlugifyIdempotent(v);
      }
    }
  }

  /** Running the registered hooks a second time on their own output changes nothing, neither the
      value nor the outcome. */
  lemma RegistryApplyIdempotent(hooks: seq<string>, v: string)
    ensures Apply(Registry, hooks, Apply(Registry, hooks, v).value) == Apply(Registry, hooks, v)
  {
    var w := Apply(Registry, hooks, v).value;
    RegistryApplyValue(hooks, v);
    RegistryApplyValue(hooks, w);
    ApplyOutcomeIgnoresValue(Registry, hooks, v, w);
    Slug.SlugifyIdempotent(v);
  }

  /** The example's slug hook. */
  lemma SlugHookExample()
    ensures Apply(Registry, ["slugify"], "POST-EXAMPLE") == Hooked("post-example", Pass)
  {
    assert ["slugify"][..0] == [];
    Slug.SlugifyExample();
  }
}
