/** `benchmark_ablations.AblationScheduler.generate_schedule`: the factor product, shuffled and numbered. */
module Ablation {
  datatype Profile = Profile(modelId: string, effort: string)

  datatype Spec = Spec(task: string, model: Profile, host: string, config: string, trial: nat, index: nat)

  // ----- the product, one factor at a time -----

  function ByConfig(task: string, model: Profile, host: string, trial: nat, configs: seq<string>): seq<Spec> {
    seq(|configs|, i requires 0 <= i < |configs| => Spec(task, model, host, configs[i], trial, 0))
  }

  /** Trials 1 to `trials`. */
  function ByTrial(task: string, model: Profile, host: string, trials: nat, configs: seq<string>): seq<Spec> {
    if trials == 0 then [] else ByTrial(task, model, host, trials - 1, configs) + ByConfig(task, model, host, trials, configs)
  }

  function ByHost(task: string, model: Profile, hosts: seq<string>, trials: nat, configs: seq<string>): seq<Spec> {
    if hosts == [] then []
    else ByHost(task, model, hosts[..|hosts| - 1], trials, configs) + ByTrial(task, model, hosts[|hosts| - 1], trials, configs)
  }

  function ByModel(task: string, models: seq<Profile>, hosts: seq<string>, trials: nat, configs: seq<string>): seq<Spec> {
    if models == [] then []
    else ByModel(task, models[..|models| - 1], hosts, trials, configs) + ByHost(task, models[|models| - 1], hosts, trials, configs)
  }

  function ByTask(tasks: seq<string>, models: seq<Profile>, hosts: seq<string>, trials: nat, configs: seq<string>): seq<Spec> {
    if tasks == [] then []
    else ByTask(tasks[..|tasks| - 1], models, hosts, trials, configs) + ByModel(tasks[|tasks| - 1], models, hosts, trials, configs)
  }

  lemma Snoc<T>(s: seq<T>, n: nat)
    requires n < |s|
    ensures s[..n + 1][..n] == s[..n] && s[..n + 1][n] == s[n] && |s[..n + 1]| == n + 1 && s[..n + 1] != []
  {
  }

  method Trials(task: string, model: Profile, host: string, trials: nat, configs: seq<string>, before: seq<Spec>) returns (raw: seq<Spec>)
    ensures raw == before + ByTrial(task, model, host, trials, configs)
  {
    raw := before;
    for trial := 1 to trials + 1
      invariant raw == before + ByTrial(task, model, host, trial - 1, configs)
    {
      ghost var all := ByConfig(task, model, host, trial, configs);
      ghost var start := raw;
      for c := 0 to |configs|
        invariant raw == start + all[..c]
      {
        raw := raw + [Spec(task, model, host, configs[c], trial, 0)];
        assert all[..c + 1] == all[..c] + [all[c]];
      }
      assert all[..|configs|] == all;
      assert before + ByTrial(task, model, host, trial - 1, configs) + all == before + (ByTrial(task, model, host, trial - 1, configs) + all);
    }
  }

  method Hosts(task: string, model: Profile, hosts: seq<string>, trials: nat, configs: seq<string>, before: seq<Spec>) returns (raw: seq<Spec>)
    ensures raw == before + ByHost(task, model, hosts, trials, configs)
  {
    hide ByTrial;
    raw := before;
    for h := 0 to |hosts|
      invariant raw == before + ByHost(task, model, hosts[..h], trials, configs)
    {
      raw := Trials(task, model, hosts[h], trials, configs, raw);
      Snoc(hosts, h);
      Behind(before, ByHost(task, model, hosts[..h], trials, configs), ByTrial(task, model, hosts[h], trials, configs));
    }
    assert hosts[..|hosts|] == hosts;
  }

  method Models(task: string, models: seq<Profile>, hosts: seq<string>, trials: nat, configs: seq<string>, before: seq<Spec>) returns (raw: seq<Spec>)
    ensures raw == before + ByModel(task, models, hosts, trials, configs)
  {
    hide ByHost;
    raw := before;
    for m := 0 to |models|
      invariant raw == before + ByModel(task, models[..m], hosts, trials, configs)
    {
      raw := Hosts(task, models[m], hosts, trials, configs, raw);
      Snoc(models, m);
      Behind(before, ByModel(task, models[..m], hosts, trials, configs), ByHost(task, models[m], hosts, trials, configs));
    }
    assert models[..|models|] == models;
  }

  lemma Behind(a: seq<Spec>, b: seq<Spec>, c: seq<Spec>)
    ensures (a + b) + c == a + (b + c)
  {
  }

  /** The nested loops, one method a level. */
  method RawSpecs(tasks: seq<string>, models: seq<Profile>, hosts: seq<string>, trials: nat, configs: seq<string>) returns (raw: seq<Spec>)
    ensures raw == ByTask(tasks, models, hosts, trials, configs)
  {
    hide ByModel;
    raw := [];
    for t := 0 to |tasks|
      invariant raw == ByTask(tasks[..t], models, hosts, trials, configs)
    {
      raw := Models(tasks[t], models, hosts, trials, configs, raw);
      Snoc(tasks, t);
    }
    assert tasks[..|tasks|] == tasks;
  }

  // ----- shuffling and numbering -----

  /** `random.shuffle`: from the end, each place swaps with one at or before it. `draws` are the random choices. */
  method Shuffle(raw: seq<Spec>, draws: seq<nat>) returns (shuffled: seq<Spec>)
    requires |draws| == |raw| && forall i | 0 <= i < |raw| :: draws[i] <= i
    ensures multiset(shuffled) == multiset(raw) && |shuffled| == |raw|
  {
    shuffled := raw;
    if raw == [] {
      return;
    }
    for i := |raw| downto 1
      invariant |shuffled| == |raw| && multiset(shuffled) == multiset(raw)
    {
      shuffled := shuffled[i := shuffled[draws[i]]][draws[i] := shuffled[i]];
    }
  }

  function Numbered(s: seq<Spec>): seq<Spec> {
    seq(|s|, i requires 0 <= i < |s| => s[i].(index := i))
  }

  function Plain(s: seq<Spec>): seq<Spec> {
    seq(|s|, i requires 0 <= i < |s| => s[i].(index := 0))
  }

  /** The schedule is a permutation of the full product, and its order indexes are 0 to n - 1 in order. */
  method GenerateSchedule(tasks: seq<string>, models: seq<Profile>, hosts: seq<string>, trials: nat, configs: seq<string>, draws: seq<nat>)
      returns (scheduled: seq<Spec>)
    requires |draws| == |ByTask(tasks, models, hosts, trials, configs)| && forall i | 0 <= i < |draws| :: draws[i] <= i
    ensures multiset(Plain(scheduled)) == multiset(ByTask(tasks, models, hosts, trials, configs))
    ensures |scheduled| == |draws| && forall i | 0 <= i < |scheduled| :: scheduled[i].index == i
  {
    hide ByTask;
    var raw := RawSpecs(tasks, models, hosts, trials, configs);
    var shuffled := Shuffle(raw, draws);
    scheduled := [];
    for i := 0 to |shuffled|
      invariant scheduled == Numbered(shuffled)[..i]
    {
      scheduled := scheduled + [shuffled[i].(index := i)];
    }
    ProductIsPlain(tasks, models, hosts, trials, configs);
    PermutedPlain(raw, shuffled);
    assert Plain(scheduled) == shuffled;
  }

  predicate AllPlain(s: seq<Spec>) {
    forall x | x in s :: x.index == 0
  }

  lemma PermutedPlain(a: seq<Spec>, b: seq<Spec>)
    requires multiset(a) == multiset(b) && AllPlain(a)
    ensures AllPlain(b)
  {
    forall x | x in b
      ensures x in a
    {
      assert x in multiset(b);
    }
  }

  lemma {:induction false} TrialsArePlain(task: string, model: Profile, host: string, trials: nat, configs: seq<string>)
    ensures AllPlain(ByTrial(task, model, host, trials, configs))
  {
    if trials > 0 {
      TrialsArePlain(task, model, host, trials - 1, configs);
    }
  }

  lemma {:induction false} HostsArePlain(task: string, model: Profile, hosts: seq<string>, trials: nat, configs: seq<string>)
    ensures AllPlain(ByHost(task, model, hosts, trials, configs))
  {
    if hosts != [] {
      HostsArePlain(task, model, hosts[..|hosts| - 1], trials, configs);
      TrialsArePlain(task, model, hosts[|hosts| - 1], trials, configs);
    }
  }

  lemma {:induction false} ModelsArePlain(task: string, models: seq<Profile>, hosts: seq<string>, trials: nat, configs: seq<string>)
    ensures AllPlain(ByModel(task, models, hosts, trials, configs))
  {
    if models != [] {
      ModelsArePlain(task, models[..|models| - 1], hosts, trials, configs);
      HostsArePlain(task, models[|models| - 1], hosts, trials, configs);
    }
  }

  lemma {:induction false} ProductIsPlain(tasks: seq<string>, models: seq<Profile>, hosts: seq<string>, trials: nat, configs: seq<string>)
    ensures AllPlain(ByTask(tasks, models, hosts, trials, configs))
  {
    if tasks != [] {
      ProductIsPlain(tasks[..|tasks| - 1], models, hosts, trials, configs);
      ModelsArePlain(tasks[|tasks| - 1], models, hosts, trials, configs);
    }
  }

  // ----- the product holds every combination, as often as its factors repeat -----

  function Count<T(==)>(s: seq<T>, x: T): nat {
    if s == [] then 0 else Count(s[..|s| - 1], x) + if s[|s| - 1] == x then 1 else 0
  }

  lemma {:induction false} CountJoin<T>(a: seq<T>, b: seq<T>, x: T)
    ensures Count(a + b, x) == Count(a, x) + Count(b, x)
  {
    if b == [] {
      assert a + b == a;
    } else {
      assert (a + b)[..|a + b| - 1] == a + b[..|b| - 1];
      CountJoin(a, b[..|b| - 1], x);
    }
  }

  lemma {:induction false} CountConfigs(task: string, model: Profile, host: string, trial: nat, configs: seq<string>, x: Spec)
    ensures Count(ByConfig(task, model, host, trial, configs), x)
            == if x == Spec(task, model, host, x.config, trial, 0) then Count(configs, x.config) else 0
  {
    if configs != [] {
      var init := configs[..|configs| - 1];
      assert ByConfig(task, model, host, trial, configs)[..|configs| - 1] == ByConfig(task, model, host, trial, init);
      CountConfigs(task, model, host, trial, init, x);
    }
  }

  lemma {:induction false} CountTrials(task: string, model: Profile, host: string, trials: nat, configs: seq<string>, x: Spec)
    ensures Count(ByTrial(task, model, host, trials, configs), x)
            == if x == Spec(task, model, host, x.config, x.trial, 0) && 1 <= x.trial <= trials then Count(configs, x.config) else 0
  {
    if trials > 0 {
      hide ByConfig, Count;
      CountTrials(task, model, host, trials - 1, configs, x);
      CountConfigs(task, model, host, trials, configs, x);
      CountJoin(ByTrial(task, model, host, trials - 1, configs), ByConfig(task, model, host, trials, configs), x);
    } else {
      assert ByTrial(task, model, host, trials, configs) == [];
    }
  }

  predicate InTrials(x: Spec, trials: nat) {
    x.index == 0 && 1 <= x.trial <= trials
  }

  lemma Distribute(a: nat, b: nat, c: nat)
    ensures (a + b) * c == a * c + b * c && 1 * c == c && 0 * c == 0
  {
  }

  lemma {:induction false} CountHosts(task: string, model: Profile, hosts: seq<string>, trials: nat, configs: seq<string>, x: Spec)
    ensures Count(ByHost(task, model, hosts, trials, configs), x)
            == if x.task == task && x.model == model && InTrials(x, trials) then Count(hosts, x.host) * Count(configs, x.config) else 0
  {
    if hosts == [] {
      assert Count(hosts, x.host) == 0;
      Distribute(0, 0, Count(configs, x.config));
    } else {
      hide ByTrial;
      var init, last := hosts[..|hosts| - 1], hosts[|hosts| - 1];
      CountHosts(task, model, init, trials, configs, x);
      CountTrials(task, model, last, trials, configs, x);
      CountJoin(ByHost(task, model, init, trials, configs), ByTrial(task, model, last, trials, configs), x);
      Distribute(Count(init, x.host), if last == x.host then 1 else 0, Count(configs, x.config));
    }
  }

  lemma {:induction false} CountModels(task: string, models: seq<Profile>, hosts: seq<string>, trials: nat, configs: seq<string>, x: Spec)
    ensures Count(ByModel(task, models, hosts, trials, configs), x)
            == if x.task == task && InTrials(x, trials) then Count(models, x.model) * (Count(hosts, x.host) * Count(configs, x.config)) else 0
  {
    if models == [] {
      assert Count(models, x.model) == 0;
      Distribute(0, 0, Count(hosts, x.host) * Count(configs, x.config));
    } else {
      hide ByHost;
      var init, last := models[..|models| - 1], models[|models| - 1];
      CountModels(task, init, hosts, trials, configs, x);
      CountHosts(task, last, hosts, trials, configs, x);
      CountJoin(ByModel(task, init, hosts, trials, configs), ByHost(task, last, hosts, trials, configs), x);
      Distribute(Count(init, x.model), if last == x.model then 1 else 0, Count(hosts, x.host) * Count(configs, x.config));
    }
  }

  function PerTask(models: seq<Profile>, hosts: seq<string>, configs: seq<string>, x: Spec): nat {
    Count(models, x.model) * (Count(hosts, x.host) * Count(configs, x.config))
  }

  /** Each combination of factors is scheduled as often as its factors were listed, and nothing else is. */
  lemma {:induction false} ProductIsFull(tasks: seq<string>, models: seq<Profile>, hosts: seq<string>, trials: nat, configs: seq<string>, x: Spec)
    ensures Count(ByTask(tasks, models, hosts, trials, configs), x)
            == if InTrials(x, trials) then Count(tasks, x.task) * PerTask(models, hosts, configs, x) else 0
  {
    if tasks == [] {
      assert Count(tasks, x.task) == 0;
      Distribute(0, 0, PerTask(models, hosts, configs, x));
    } else {
      var init, last := tasks[..|tasks| - 1], tasks[|tasks| - 1];
      var one := if last == x.task then 1 else 0;
      assert Count(tasks, x.task) == Count(init, x.task) + one;
      assert ByTask(tasks, models, hosts, trials, configs) == ByTask(init, models, hosts, trials, configs) + ByModel(last, models, hosts, trials, configs);
      CountModels(last, models, hosts, trials, configs, x);
      assert Count(ByModel(last, models, hosts, trials, configs), x)
          == if last == x.task && InTrials(x, trials) then PerTask(models, hosts, configs, x) else 0;
      hide *;
      ProductIsFull(init, models, hosts, trials, configs, x);
      CountJoin(ByTask(init, models, hosts, trials, configs), ByModel(last, models, hosts, trials, configs), x);
      Distribute(Count(init, x.task), one, PerTask(models, hosts, configs, x));
    }
  }

  lemma {:induction false} CountIsMultiplicity<T>(s: seq<T>, x: T)
    ensures Count(s, x) == multiset(s)[x]
  {
    if s != [] {
      CountIsMultiplicity(s[..|s| - 1], x);
      assert s == s[..|s| - 1] + [s[|s| - 1]];
    }
  }
}
