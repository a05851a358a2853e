/**
  The refinement engine: a backtracking search over rule applications. The rules are arbitrary
  pure functions, the picker and the model checker arbitrary oracles. Proved: whatever they
  answer, the chain in memory always replays to the current spec, the chain on disk replays to
  the returned spec across passes, no choice is committed twice at a depth, and every committed
  step changes the spec.
  */
module Engine {
  import opened Expressions

  type Rule = Name

  /** Hashes identify specs, so a step carries the specs themselves. */
  datatype Step<S, P> = Step(step: nat, rule: Rule, params: P, pre: S, post: S)

  /** What the injected picker may do: throw, return something malformed, or choose. */
  datatype Pick<P> = Threw | Malformed | Choice(rule: Rule, params: P, tooLong: bool)

  /** The registered rules; `apply` answers `None` when the rule raises. */
  datatype RuleSet<!S, !P> = RuleSet(
    names: seq<Rule>, applicable: (Rule, S) -> bool, apply: (Rule, S, P) -> Option<S>)

  /** What one pick amounts to at a spec. */
  datatype Judgement<S> = Stuck | Invalid | Raised | NoChange | Rejected | Accepted(next: S)

  /** How a pass ends: the check is met, backtracking is exhausted, or the step limit is hit. */
  datatype Ending = Finished | Exhausted | Capped

  ghost predicate NeverChooses<P>(picks: nat -> Pick<P>, n: nat) {
    forall k | 0 <= k < n :: !picks(k).Choice?
  }

  const MAX_BACKTRACK_DEPTH: nat := 5
  const STRIKES: nat := 3

  /** Replay looks at rule names and parameters only. */
  function Replay<S, P>(rules: RuleSet<S, P>, start: S, chain: seq<Step<S, P>>): Option<S> {
    if chain == [] then Some(start)
    else match Replay(rules, start, chain[..|chain| - 1])
      case None => None
      case Some(s) => ReplayStep(rules, s, chain[|chain| - 1])
  }

  function ReplayStep<S, P>(rules: RuleSet<S, P>, s: S, st: Step<S, P>): Option<S> {
    if st.rule in rules.names then rules.apply(st.rule, s, st.params) else None
  }

  lemma {:induction false} ReplayAppend<S, P>(rules: RuleSet<S, P>, start: S, a: seq<Step<S, P>>, b: seq<Step<S, P>>)
    requires Replay(rules, start, a).Some?
    ensures Replay(rules, start, a + b) == Replay(rules, Replay(rules, start, a).value, b)
    decreases |b|
  {
    if b == [] {
      assert a + b == a;
    } else {
      assert (a + b)[..|a + b| - 1] == a + b[..|b| - 1];
      ReplayAppend(rules, start, a, b[..|b| - 1]);
    }
  }

  /** `specs` are the specs a chain leads through, each what the step's registered rule makes of the one before. */
  ghost predicate LeadsThrough<S, P>(rules: RuleSet<S, P>, chain: seq<Step<S, P>>, specs: seq<S>) {
    && |specs| == |chain| + 1
    && forall k | 0 <= k < |chain| ::
         chain[k].rule in rules.names && rules.apply(chain[k].rule, specs[k], chain[k].params) == Some(specs[k + 1])
  }

  /** Replay succeeds exactly when every step's rule is registered and applies, and gives the spec they lead to. */
  lemma {:induction false} ReplayMeansIff<S(!new), P>(rules: RuleSet<S, P>, start: S, chain: seq<Step<S, P>>, t: S)
    ensures Replay(rules, start, chain) == Some(t) <==>
      exists specs :: LeadsThrough(rules, chain, specs) && specs[0] == start && specs[|chain|] == t
    decreases |chain|
  {
    if chain == [] {
      assert LeadsThrough(rules, chain, [start]);
    } else {
      var n := |chain| - 1;
      if Replay(rules, start, chain) == Some(t) {
        var s := Replay(rules, start, chain[..n]).value;
        ReplayMeansIff(rules, start, chain[..n], s);
        var specs :| LeadsThrough(rules, chain[..n], specs) && specs[0] == start && specs[n] == s;
        assert forall k | 0 <= k < n :: chain[..n][k] == chain[k];
        assert LeadsThrough(rules, chain, specs + [t]);
      }
      if exists specs :: LeadsThrough(rules, chain, specs) && specs[0] == start && specs[|chain|] == t {
        var specs :| LeadsThrough(rules, chain, specs) && specs[0] == start && specs[|chain|] == t;
        assert forall k | 0 <= k < n :: chain[..n][k] == chain[k];
        assert LeadsThrough(rules, chain[..n], specs[..n + 1]);
        ReplayMeansIff(rules, start, chain[..n], specs[n]);
      }
    }
  }

  /** Same rules with the same parameters, step numbers and hashes aside. */
  predicate SameMoves<S(==), P(==)>(a: seq<Step<S, P>>, b: seq<Step<S, P>>) {
    |a| == |b| && forall k | 0 <= k < |a| :: a[k].rule == b[k].rule && a[k].params == b[k].params
  }

  lemma {:induction false} SameMovesReplay<S, P>(rules: RuleSet<S, P>, start: S, a: seq<Step<S, P>>, b: seq<Step<S, P>>)
    requires SameMoves(a, b)
    ensures Replay(rules, start, a) == Replay(rules, start, b)
    decreases |a|
  {
    if a != [] {
      SameMovesReplay(rules, start, a[..|a| - 1], b[..|b| - 1]);
    }
  }

  predicate Numbered<S, P>(chain: seq<Step<S, P>>) {
    forall k | 0 <= k < |chain| :: chain[k].step == k
  }

  /** `_renumber_steps` */
  function Renumber<S(==), P(==)>(chain: seq<Step<S, P>>): (r: seq<Step<S, P>>)
    ensures Numbered(r) && SameMoves(r, chain)
  {
    seq(|chain|, k requires 0 <= k < |chain| => chain[k].(step := k))
  }

  /** Step `k` is numbered, starts at the spec before it, changes it, and is what its rule makes of it. */
  ghost predicate StepRecorded<S, P>(rules: RuleSet<S, P>, start: S, chain: seq<Step<S, P>>, k: nat)
    requires k < |chain|
  {
    && chain[k].step == k
    && chain[k].pre == Tip(start, chain[..k])
    && chain[k].pre != chain[k].post
    && ReplayStep(rules, chain[k].pre, chain[k]) == Some(chain[k].post)
  }

  ghost predicate Recorded<S, P>(rules: RuleSet<S, P>, start: S, chain: seq<Step<S, P>>) {
    forall k | 0 <= k < |chain| :: StepRecorded(rules, start, chain, k)
  }

  function Tip<S, P>(start: S, chain: seq<Step<S, P>>): S {
    if chain == [] then start else chain[|chain| - 1].post
  }

  /** Depth, rule and parameters of a step of the chain. */
  predicate InChain<S, P(==)>(chain: seq<Step<S, P>>, c: (nat, Rule, P)) {
    c.0 < |chain| && chain[c.0].rule == c.1 && chain[c.0].params == c.2
  }

  lemma DroppedFrom<S, P>(chain: seq<Step<S, P>>, c: (nat, Rule, P))
    requires chain != []
    ensures var n := |chain| - 1;
      InChain(chain, c) <==> InChain(chain[..n], c) || c == (n, chain[n].rule, chain[n].params)
  {
  }

  /** Without its last step a recorded chain is recorded, and ends before that step. */
  lemma DroppedTip<S, P>(rules: RuleSet<S, P>, start: S, chain: seq<Step<S, P>>)
    requires Recorded(rules, start, chain) && chain != []
    ensures var n := |chain| - 1;
      Recorded(rules, start, chain[..n]) && Tip(start, chain[..n]) == chain[n].pre && chain[n].step == n
  {
    RecordedPrefix(rules, start, chain, |chain| - 1);
    assert StepRecorded(rules, start, chain, |chain| - 1);
  }

  /** A recorded chain replays to its last spec. */
  lemma {:induction false} RecordedReplays<S, P>(rules: RuleSet<S, P>, start: S, chain: seq<Step<S, P>>)
    requires Recorded(rules, start, chain)
    ensures Replay(rules, start, chain) == Some(Tip(start, chain))
    decreases |chain|
  {
    if chain != [] {
      var n := |chain| - 1;
      RecordedPrefix(rules, start, chain, n);
      RecordedReplays(rules, start, chain[..n]);
      assert StepRecorded(rules, start, chain, n);
    }
  }

  lemma RecordedPrefix<S, P>(rules: RuleSet<S, P>, start: S, chain: seq<Step<S, P>>, n: nat)
    requires Recorded(rules, start, chain) && n <= |chain|
    ensures Recorded(rules, start, chain[..n])
  {
    forall k | 0 <= k < n
      ensures StepRecorded(rules, start, chain[..n], k)
    {
      assert StepRecorded(rules, start, chain, k);
      assert chain[..n][..k] == chain[..k];
    }
  }

  lemma RecordedExtends<S, P>(rules: RuleSet<S, P>, start: S, chain: seq<Step<S, P>>, st: Step<S, P>)
    requires Recorded(rules, start, chain)
    requires st.step == |chain| && st.pre == Tip(start, chain) && st.pre != st.post
    requires ReplayStep(rules, st.pre, st) == Some(st.post)
    ensures Recorded(rules, start, chain + [st])
  {
    forall k | 0 <= k < |chain| + 1
      ensures StepRecorded(rules, start, chain + [st], k)
    {
      assert (chain + [st])[..k] == chain[..k];
      if k < |chain| {
        assert StepRecorded(rules, start, chain, k);
      }
    }
  }

  class Search<S(==, !new), P(==, !new)> {
    const rules: RuleSet<S, P>
    const start: S
    const prefix: seq<Step<S, P>>
    const done: S -> bool
    var spec: S
    var chain: seq<Step<S, P>>
    var excluded: map<nat, set<(Rule, P)>>
    var strikes: map<nat, nat>
    var disk: seq<Step<S, P>>
    /** Every commit so far, in order: depth, rule and parameters. */
    ghost var commits: seq<(nat, Rule, P)>

    /** `disk` is what earlier passes have persisted; it becomes the immutable prefix. */
    constructor (rules: RuleSet<S, P>, done: S -> bool, start: S, disk: seq<Step<S, P>>)
      ensures this.rules == rules && this.done == done && this.start == start && prefix == disk
      ensures spec == start && chain == [] && excluded == map[] && strikes == map[]
      ensures this.disk == disk && commits == []
    {
      this.rules, this.done, this.start, prefix := rules, done, start, disk;
      spec, chain, excluded, strikes, this.disk, commits := start, [], map[], map[], disk, [];
    }

    static function SetAt(sets: map<nat, set<(Rule, P)>>, depth: nat): set<(Rule, P)> {
      if depth in sets then sets[depth] else {}
    }

    function ExcludedAt(depth: nat): set<(Rule, P)>
      reads this
    {
      SetAt(excluded, depth)
    }

    ghost predicate NonTerminalBefore()
      reads this
    {
      forall k | 0 <= k < |chain| :: !done(chain[k].pre)
    }

    /** A committed choice is still in the chain, or excluded at its depth. */
    ghost predicate Accounted(c: (nat, Rule, P))
      reads this
    {
      InChain(chain, c) || (c.1, c.2) in ExcludedAt(c.0)
    }

    ghost predicate CommitsDistinct()
      reads this
    {
      forall i, j | 0 <= i < j < |commits| :: commits[i] != commits[j]
    }

    /** Every step of the chain was committed at its depth. */
    ghost predicate ChainCommitted()
      reads this
    {
      forall k | 0 <= k < |chain| :: (k, chain[k].rule, chain[k].params) in commits
    }

    /** The disk holds the prefix and the chain, its steps numbered from 0. */
    ghost predicate Persisted()
      reads this
    {
      SameMoves(disk, prefix + chain) && Numbered(disk)
    }

    /** The chain replays, and every commit is accounted for. */
    ghost predicate Kept()
      reads this
    {
      && Recorded(rules, start, chain) && NonTerminalBefore()
      && (forall i | 0 <= i < |commits| :: Accounted(commits[i]))
      && CommitsDistinct() && ChainCommitted()
    }

    ghost predicate Valid()
      reads this
    {
      Kept() && spec == Tip(start, chain) && (Persisted() || !done(spec))
    }

    /** `_replay_chain` */
    method ReplayChain(steps: seq<Step<S, P>>) returns (r: Option<S>)
      ensures r == Replay(rules, start, steps)
    {
      var s := start;
      for k := 0 to |steps|
        invariant Replay(rules, start, steps[..k]) == Some(s)
      {
        assert steps[..k + 1][..k] == steps[..k];
        if steps[k].rule !in rules.names {
          ReplayFails(rules, start, steps, k + 1);
          return None;
        }
        var next := rules.apply(steps[k].rule, s, steps[k].params);
        if next.None? {
          ReplayFails(rules, start, steps, k + 1);
          return None;
        }
        s := next.value;
      }
      assert steps[..|steps|] == steps;
      return Some(s);
    }

    method Exclude(depth: nat, c: (Rule, P))
      requires Kept()
      modifies this`excluded
      ensures Kept() && excluded == old(excluded)[depth := old(ExcludedAt(depth)) + {c}]
      ensures ExcludedAt(depth) == old(ExcludedAt(depth)) + {c}
      ensures forall d | d != depth :: ExcludedAt(d) == old(ExcludedAt(d))
      ensures forall d, c' | c' in old(ExcludedAt(d)) :: c' in ExcludedAt(d)
    {
      var now := ExcludedAt(depth) + {c};
      excluded := excluded[depth := now];
    }

    /** Append a step that changes the spec and persist the whole chain. */
    method Commit(rule: Rule, params: P, next: S)
      requires Valid() && !done(spec)
      requires rule in rules.names && rules.apply(rule, spec, params) == Some(next) && next != spec
      requires (rule, params) !in ExcludedAt(|chain|)
      modifies this
      ensures Valid() && spec == next && |chain| == |old(chain)| + 1 && excluded == old(excluded)
      ensures strikes == old(strikes) - {|old(chain)|}
      ensures chain == old(chain) + [Step(|old(chain)|, rule, params, old(spec), next)]
      ensures commits == old(commits) + [(|old(chain)|, rule, params)]
      ensures Persisted()
    {
      var depth := |chain|;
      forall i | 0 <= i < |commits|
        ensures commits[i] != (depth, rule, params)
      {
        assert Accounted(commits[i]);
      }
      RecordedExtends(rules, start, chain, Step(depth, rule, params, spec, next));
      chain := chain + [Step(depth, rule, params, spec, next)];
      strikes := strikes - {depth};
      disk := Renumber(prefix + chain);
      spec := next;
      commits := commits + [(depth, rule, params)];
    }

    /** The last choice goes, excluded at its depth. */
    method ExcludeLast()
      requires Kept() && chain != []
      modifies this`excluded, this`chain
      ensures chain == old(chain)[..|old(chain)| - 1] && Kept() && !done(Tip(start, chain))
      ensures var last := old(chain)[|chain|];
        ExcludedAt(|chain|) == old(ExcludedAt(|chain| - 1)) + {(last.rule, last.params)}
      ensures forall d | d != |chain| :: ExcludedAt(d) == old(ExcludedAt(d))
    {
      var last := chain[|chain| - 1];
      DroppedTip(rules, start, chain);
      forall c
        ensures InChain(chain, c) <==> InChain(chain[..|chain| - 1], c) || c == (last.step, last.rule, last.params)
      {
        DroppedFrom(chain, c);
      }
      Exclude(last.step, (last.rule, last.params));
      chain := chain[..|chain| - 1];
    }

    /** Exclude the last choice at its depth and drop it. */
    method DropLast()
      requires Valid() && chain != []
      modifies this`excluded, this`chain, this`spec
      ensures chain == old(chain)[..|old(chain)| - 1]
      ensures spec == Tip(start, chain) && !done(spec)
      ensures Valid()
      ensures var last := old(chain)[|chain|];
        ExcludedAt(|chain|) == old(ExcludedAt(|chain| - 1)) + {(last.rule, last.params)}
      ensures forall d | d != |chain| :: ExcludedAt(d) == old(ExcludedAt(d))
    {
      ExcludeLast();
      Restore();
    }

    /** The spec the chain replays to. */
    method Restore()
      requires Kept()
      modifies this`spec
      ensures Kept() && spec == Tip(start, chain)
    {
      RecordedReplays(rules, start, chain);
      var s := ReplayChain(chain);
      spec := s.value;
    }

    /** Some rule applies at `s`, and none of its choices is excluded at the depth. */
    ghost predicate Live(s: S, depth: nat)
      reads this
    {
      exists r | r in rules.names :: rules.applicable(r, s) && forall c | c in ExcludedAt(depth) :: c.0 != r
    }

    /** The choices dropped from `chain0` are excluded at their depths, and nothing else is. */
    ghost predicate Dropped(chain0: seq<Step<S, P>>, excluded0: map<nat, set<(Rule, P)>>)
      reads this
    {
      && |chain| <= |chain0| && chain == chain0[..|chain|]
      && (forall n | |chain| <= n < |chain0| ::
            ExcludedAt(n) == SetAt(excluded0, n) + {(chain0[n].rule, chain0[n].params)})
      && (forall n: nat | n < |chain| || |chain0| <= n :: ExcludedAt(n) == SetAt(excluded0, n))
    }

    /** No spec that `chain0` leads to, from depth `lo` on, has a live rule. */
    ghost predicate DeadFrom(chain0: seq<Step<S, P>>, lo: nat)
      reads this
    {
      forall n | lo <= n < |chain0| :: !Live(Tip(start, chain0[..n]), n)
    }

    /**
      The chain was cut back, by five steps at most: the specs passed on the way had no live rule, and
      `ok` says whether the spec reached has one.
      */
    ghost predicate CutBack(ok: bool, chain0: seq<Step<S, P>>, excluded0: map<nat, set<(Rule, P)>>)
      reads this
    {
      && Dropped(chain0, excluded0) && |chain0| <= |chain| + 5 && DeadFrom(chain0, |chain| + 1)
      && (ok ==> |chain| < |chain0| && Live(spec, |chain|))
      && (!ok ==> chain == [] || |chain0| == |chain| + 5)
      && (!ok && |chain| < |chain0| ==> !Live(spec, |chain|))
    }

    /** One step back, and whether a rule is live there. */
    method StepBack(ghost chain0: seq<Step<S, P>>, ghost excluded0: map<nat, set<(Rule, P)>>) returns (live: bool)
      requires Valid() && chain != [] && Dropped(chain0, excluded0) && DeadFrom(chain0, |chain|)
      modifies this`excluded, this`chain, this`spec
      ensures Valid() && !done(spec) && |chain| == |old(chain)| - 1
      ensures Dropped(chain0, excluded0) && DeadFrom(chain0, |chain| + 1) && live == Live(spec, |chain|)
    {
      ghost var before := chain;
      DropLast();
      assert forall n | |before| <= n < |chain0| :: ExcludedAt(n) == old(ExcludedAt(n));
      var excludedNames := set c | c in ExcludedAt(|chain|) :: c.0;
      live := exists r | r in rules.names :: rules.applicable(r, spec) && r !in excludedNames;
    }

    /** `_backtrack`: at most five steps back, to a spec where some applicable rule is not excluded. */
    method Backtrack() returns (ok: bool)
      requires Valid() && !done(spec)
      modifies this`excluded, this`chain, this`spec
      ensures Valid() && !done(spec) && CutBack(ok, old(chain), old(excluded))
    {
      var rollbacks := 0;
      ghost var chain0, excluded0 := chain, excluded;
      while rollbacks < MAX_BACKTRACK_DEPTH
        invariant Valid() && !done(spec)
        invariant rollbacks <= MAX_BACKTRACK_DEPTH && |chain| + rollbacks == |chain0|
        invariant Dropped(chain0, excluded0) && DeadFrom(chain0, |chain|)
      {
        if chain == [] {
          return false;
        }
        var live := StepBack(chain0, excluded0);
        rollbacks := rollbacks + 1;
        if live {
          return true;
        }
      }
      return false;
    }

    function StrikesAt(depth: nat): nat
      reads this
    {
      if depth in strikes then strikes[depth] else 0
    }

    function Judge(pick: Pick<P>, accepted: bool, allowed: Rule -> bool): Judgement<S>
      reads this
    {
      if !exists r | r in rules.names :: rules.applicable(r, spec) && allowed(r) then Stuck
      else if !pick.Choice? || !(pick.rule in rules.names && rules.applicable(pick.rule, spec) && allowed(pick.rule))
          || (pick.rule, pick.params) in ExcludedAt(|chain|) || pick.tooLong then Invalid
      else match rules.apply(pick.rule, spec, pick.params)
        case None => Raised
        case Some(next) => if next == spec then NoChange else if !accepted then Rejected else Accepted(next)
    }

    /** Three strikes counted at the depth, a step back at the third. */
    ghost predicate Struck(go: bool, chain0: seq<Step<S, P>>, spec0: S, strikes0: nat, excluded0: map<nat, set<(Rule, P)>>)
      reads this
    {
      && (strikes0 + 1 < 3 ==> go && chain == chain0 && spec == spec0 && excluded == excluded0)
      && (strikes0 + 1 >= 3 ==> CutBack(go, chain0, excluded0))
    }

    /** A failed pick: a strike at this depth, and after three a step back. */
    method Fail() returns (go: bool)
      requires Valid() && !done(spec)
      modifies this`strikes, this`excluded, this`chain, this`spec
      ensures Valid() && !done(spec)
      ensures strikes == old(strikes)[|old(chain)| := old(StrikesAt(|chain|)) + 1]
      ensures Struck(go, old(chain), old(spec), old(StrikesAt(|chain|)), old(excluded))
    {
      var depth := |chain|;
      strikes := strikes[depth := StrikesAt(depth) + 1];
      go := true;
      if strikes[depth] >= STRIKES {
        go := Backtrack();
      }
    }

    /** A legal pick that changes nothing: excluded at this depth, and a strike. */
    method RefuseIdle(pick: Pick<P>) returns (go: bool)
      requires Valid() && !done(spec) && pick.Choice?
      modifies this`strikes, this`excluded, this`chain, this`spec
      ensures Valid() && !done(spec)
      ensures strikes == old(strikes)[|old(chain)| := old(StrikesAt(|chain|)) + 1]
      ensures Struck(go, old(chain), old(spec), old(StrikesAt(|chain|)),
        old(excluded)[|old(chain)| := old(ExcludedAt(|chain|)) + {(pick.rule, pick.params)}])
    {
      Exclude(|chain|, (pick.rule, pick.params));
      go := Fail();
    }

    /** Turns a picker that never chooses has left, at most. */
    ghost function Patience(): nat
      reads this
    {
      STRIKES * |chain| + (if StrikesAt(|chain|) + 1 < STRIKES then STRIKES - StrikesAt(|chain|) else 1)
    }

    /** The pick names a registered, applicable and allowed rule, and parameters not tried here before. */
    ghost predicate Legal(pick: Pick<P>, allowed: Rule -> bool)
      reads this
    {
      && pick.Choice? && pick.rule in rules.names && rules.applicable(pick.rule, spec) && allowed(pick.rule)
      && !pick.tooLong && (pick.rule, pick.params) !in ExcludedAt(|chain|)
    }

    /** A legal pick whose rule turns the spec into a different one. */
    ghost predicate Advances(pick: Pick<P>, allowed: Rule -> bool)
      reads this
    {
      && Legal(pick, allowed) && rules.apply(pick.rule, spec, pick.params).Some?
      && rules.apply(pick.rule, spec, pick.params).value != spec
    }

    /** A legal pick whose rule leaves the spec as it is. */
    ghost predicate Idles(pick: Pick<P>, allowed: Rule -> bool)
      reads this
    {
      Legal(pick, allowed) && rules.apply(pick.rule, spec, pick.params) == Some(spec)
    }

    ghost predicate Offered(allowed: Rule -> bool)
      reads this
    {
      exists r | r in rules.names :: rules.applicable(r, spec) && allowed(r)
    }

    lemma JudgeMeans(pick: Pick<P>, accepted: bool, allowed: Rule -> bool)
      ensures var j := Judge(pick, accepted, allowed);
        && (j.Stuck? <==> !Offered(allowed))
        && (j.Invalid? <==> Offered(allowed) && !Legal(pick, allowed))
        && (j.NoChange? <==> Idles(pick, allowed))
        && (j.Accepted? <==> accepted && Advances(pick, allowed))
        && (j.Accepted? ==> rules.apply(pick.rule, spec, pick.params) == Some(j.next))
    {
    }

    /** What a judgement leads to. */
    method Act(j: Judgement<S>, pick: Pick<P>) returns (go: bool)
      requires !j.Stuck? && !j.Invalid? ==> pick.Choice?
      requires Valid() && !done(spec)
      requires j.Accepted? ==>
        && pick.rule in rules.names && rules.apply(pick.rule, spec, pick.params) == Some(j.next) && j.next != spec
        && (pick.rule, pick.params) !in ExcludedAt(|chain|)
      modifies this
      ensures Valid()
      ensures j.Accepted? ==>
        && go && spec == j.next && Persisted()
        && chain == old(chain) + [Step(|old(chain)|, pick.rule, pick.params, old(spec), spec)]
        && commits == old(commits) + [(|old(chain)|, pick.rule, pick.params)]
        && excluded == old(excluded) && strikes == old(strikes) - {|old(chain)|}
      ensures !j.Accepted? ==> |chain| <= |old(chain)| && commits == old(commits) && disk == old(disk) && !done(spec)
      ensures j.Raised? || j.Rejected? ==>
        && go && chain == old(chain) && spec == old(spec) && strikes == old(strikes)
        && ExcludedAt(|old(chain)|) == old(ExcludedAt(|chain|)) + {(pick.rule, pick.params)}
      ensures j.Invalid? || j.NoChange? ==> strikes == old(strikes)[|old(chain)| := old(StrikesAt(|chain|)) + 1]
      ensures j.Invalid? ==> Struck(go, old(chain), old(spec), old(StrikesAt(|chain|)), old(excluded))
      ensures j.NoChange? ==> Struck(go, old(chain), old(spec), old(StrikesAt(|chain|)),
        old(excluded)[|old(chain)| := old(ExcludedAt(|chain|)) + {(pick.rule, pick.params)}])
      ensures j.Stuck? ==> strikes == old(strikes) && CutBack(go, old(chain), old(excluded))
    {
      var depth := |chain|;
      match j
      case Stuck => go := Backtrack();
      case Invalid => go := Fail();
      case Raised =>
        Exclude(depth, (pick.rule, pick.params));
        go := true;
      case NoChange => go := RefuseIdle(pick);
      case Rejected =>
        Exclude(depth, (pick.rule, pick.params));
        go := true;
      case Accepted(next) =>
        Commit(pick.rule, pick.params, next);
        go := true;
    }

    /**
      One turn of the loop; false when backtracking is exhausted. The chain grows exactly when the
      model checker accepts what a legal pick makes of the spec. A legal pick that does not get that
      far is excluded at its depth; a pick that is not legal, or changes nothing, is a strike.
      */
    method Turn(pick: Pick<P>, accepted: bool, allowed: Rule -> bool) returns (go: bool)
      requires Valid() && !done(spec)
      modifies this
      ensures Valid()
      ensures |chain| > |old(chain)| <==> accepted && old(Advances(pick, allowed))
      ensures |chain| > |old(chain)| ==>
        && go && Some(spec) == rules.apply(pick.rule, old(spec), pick.params) && Persisted()
        && chain == old(chain) + [Step(|old(chain)|, pick.rule, pick.params, old(spec), spec)]
        && commits == old(commits) + [(|old(chain)|, pick.rule, pick.params)]
        && excluded == old(excluded) && strikes == old(strikes) - {|old(chain)|}
      ensures |chain| <= |old(chain)| ==> commits == old(commits) && disk == old(disk) && !done(spec)
      ensures |chain| <= |old(chain)| ==>
        ExcludedAt(|old(chain)|) == old(ExcludedAt(|chain|)) + (if old(Legal(pick, allowed)) then {(pick.rule, pick.params)} else {})
      ensures |chain| <= |old(chain)| && old(Legal(pick, allowed)) && !old(Idles(pick, allowed)) ==>
        go && chain == old(chain) && spec == old(spec) && strikes == old(strikes)
      ensures old(Offered(allowed)) && (!old(Legal(pick, allowed)) || old(Idles(pick, allowed))) ==>
        strikes == old(strikes)[|old(chain)| := old(StrikesAt(|chain|)) + 1]
      ensures old(Offered(allowed)) && !old(Legal(pick, allowed)) ==>
        Struck(go, old(chain), old(spec), old(StrikesAt(|chain|)), old(excluded))
      ensures old(Idles(pick, allowed)) ==>
        Struck(go, old(chain), old(spec), old(StrikesAt(|chain|)),
               old(excluded)[|old(chain)| := old(ExcludedAt(|chain|)) + {(pick.rule, pick.params)}])
      ensures !old(Offered(allowed)) ==> strikes == old(strikes) && CutBack(go, old(chain), old(excluded))
      ensures !pick.Choice? && go ==> Patience() < old(Patience())
      ensures !go ==> chain == [] || !Live(spec, |chain|)
    {
      JudgeMeans(pick, accepted, allowed);
      go := Act(Judge(pick, accepted, allowed), pick);
    }

    /** The commits behind the first `n` are the picks of the turns listed, each accepted. */
    ghost predicate CommittedBy(turns: seq<nat>, n: nat, picks: nat -> Pick<P>, accepts: nat -> bool, allowed: Rule -> bool)
      reads this
    {
      && |commits| == n + |turns|
      && (forall i, j | 0 <= i < j < |turns| :: turns[i] < turns[j])
      && forall i | 0 <= i < |turns| ::
           && accepts(turns[i]) && picks(turns[i]).Choice? && allowed(picks(turns[i]).rule)
           && commits[n + i].1 == picks(turns[i]).rule && commits[n + i].2 == picks(turns[i]).params
    }

    /**
      `run`. `picks` and `accepts` stand for whatever the picker and the model checker answer at
      each step; `allowed` filters the rules. A picker that never chooses ends the search by
      exhaustion, three turns per depth, instead of spinning to the step limit.
      */
    method Run(picks: nat -> Pick<P>, accepts: nat -> bool, allowed: Rule -> bool, maxSteps: nat)
      returns (end: Ending, ghost turns: seq<nat>, ghost taken: nat)
      requires Valid() && Persisted()
      modifies this
      ensures Valid()
      ensures end == Finished <==> done(spec)
      ensures end == Finished ==> Persisted()
      ensures CommitsDistinct() && ChainCommitted() && old(commits) <= commits
      ensures CommittedBy(turns, |old(commits)|, picks, accepts, allowed)
      ensures taken <= maxSteps && forall i | 0 <= i < |turns| :: turns[i] < taken
      ensures end == Capped ==> taken == maxSteps
      ensures end == Exhausted ==> chain == [] || !Live(spec, |chain|)
      ensures NeverChooses(picks, maxSteps) && !done(old(spec)) && maxSteps >= STRIKES * (|old(chain)| + 1) ==>
        end == Exhausted
    {
      var total := 0;
      turns, taken := [], 0;
      ghost var n := |commits|;
      while !done(spec)
        invariant Valid() && taken == total <= maxSteps
        invariant done(spec) ==> Persisted()
        invariant old(commits) <= commits && CommittedBy(turns, n, picks, accepts, allowed)
        invariant forall i | 0 <= i < |turns| :: turns[i] < total
        invariant NeverChooses(picks, maxSteps) && !done(old(spec)) ==>
          !done(spec) && Patience() + total <= STRIKES * (|old(chain)| + 1)
        decreases maxSteps - total
      {
        if total >= maxSteps {
          return Capped, turns, taken;
        }
        var now := total;
        total := total + 1;
        taken := total;
        ghost var before := |chain|;
        var go := Turn(picks(now), accepts(now), allowed);
        if |chain| > before {
          turns := turns + [now];
        }
        if !go {
          return Exhausted, turns, taken;
        }
      }
      return Finished, turns, taken;
    }
  }

  lemma {:induction false} ReplayFails<S, P>(rules: RuleSet<S, P>, start: S, steps: seq<Step<S, P>>, k: nat)
    requires k <= |steps| && Replay(rules, start, steps[..k]) == None
    ensures Replay(rules, start, steps) == None
    decreases |steps| - k
  {
    if k == |steps| {
      assert steps[..k] == steps;
    } else {
      assert steps[..k + 1][..k] == steps[..k];
      ReplayFails(rules, start, steps, k + 1);
    }
  }

  /**
    Replay across passes: a pass that starts where the persisted prefix leads and ends normally
    leaves a persisted chain that leads from the initial spec to the returned one.
    */
  method RunPass<S(==, !new), P(==, !new)>(
      rules: RuleSet<S, P>, done: S -> bool, initial: S, formal: S, disk: seq<Step<S, P>>,
      picks: nat -> Pick<P>, accepts: nat -> bool, allowed: Rule -> bool, maxSteps: nat)
    returns (r: Option<S>, persisted: seq<Step<S, P>>)
    requires Replay(rules, initial, disk) == Some(formal) && Numbered(disk)
    ensures r.Some? ==> done(r.value) && Replay(rules, initial, persisted) == r && Numbered(persisted)
  {
    var search := new Search(rules, done, formal, disk);
    assert disk + [] == disk;
    var end, _, _ := search.Run(picks, accepts, allowed, maxSteps);
    persisted := search.disk;
    if end != Finished {
      return None, persisted;
    }
    RecordedReplays(rules, formal, search.chain);
    ReplayAppend(rules, initial, disk, search.chain);
    SameMovesReplay(rules, initial, persisted, disk + search.chain);
    return Some(search.spec), persisted;
  }
}
