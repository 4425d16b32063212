/**
  Two-phase teardown: a group's sets are destroyed after the commit that takes the rules
  out. The kernel refuses to destroy a set while a rule names it, so the question is which
  rules still name a set once a commit succeeded, or got through some of the tables only.
 */
module Teardown {
  import opened Text
  import opened Netfilter
  import opened Chains
  import opened Convergence
  import opened Reconciler

  /** The words before the name of a set. */
  predicate IsSetOption(word: string) { word == "--match-set" || word == "--add-set" }

  ghost predicate Mentions(r: Rule, name: string)
  {
    exists i | 0 <= i < |r| - 1 :: IsSetOption(r[i]) && r[i + 1] == name
  }

  ghost predicate SomeMentions(rules: seq<Rule>, name: string)
  {
    exists i | 0 <= i < |rules| :: Mentions(rules[i], name)
  }

  ghost predicate Referenced(k: Kernel, t: string, c: string, name: string)
  {
    SomeMentions(Rules(ChainAt(k, t, c)), name)
  }

  /** The rules we add to foreign chains name no set. */
  ghost predicate PatchesSilent(m: Model, name: string)
  {
    forall t, c | t in m && c in m[t] && m[t][c].PatchModel? ::
      forall i | 0 <= i < |m[t][c].ordered| :: !Mentions(m[t][c].ordered[i].rule, name)
  }

  lemma SameMentions(a: seq<Rule>, b: seq<Rule>, gone: set<Rule>, name: string)
    requires Outside(a, gone) == Outside(b, gone)
    requires forall r | r in gone :: !Mentions(r, name)
    ensures SomeMentions(a, name) ==> SomeMentions(b, name)
  {
    if i :| 0 <= i < |a| && Mentions(a[i], name) {
      AgreeOutside(a, b, gone, gone);
      CountedIsMember(a, a[i]);
      CountedIsMember(b, a[i]);
      var j :| 0 <= j < |b| && b[j] == a[i];
      assert Mentions(b[j], name);
    }
  }

  /** Which chains name a set after a successful commit. */
  lemma ReferencedAfter(m: Model, k: Kernel, t: string, c: string, name: string)
    requires GoodConfig(m) && CleanKernel(k) && PatchesSilent(m, name)
    ensures Referenced(AfterKernel(m, k), t, c, name) <==>
            if t in m && c in m[t] && m[t][c].DeleteModel? then false
            else if t in m && c in m[t] && m[t][c].OverrideModel? then SomeMentions(m[t][c].rules, name)
            else Referenced(k, t, c, name)
  {
    AfterCommitHolds(m, k, t, c);
    if t in m && c in m[t] && m[t][c].PatchModel? {
      var before, after := Rules(ChainAt(k, t, c)), Rules(ChainAt(AfterKernel(m, k), t, c));
      SameMentions(before, after, OurRules(m[t][c].ordered), name);
      SameMentions(after, before, OurRules(m[t][c].ordered), name);
    }
  }

  /** No kernel rule names the set after the commit exactly if no registered chain does and
      every rule that named it sat in a chain registered for deletion or as a whole. */
  lemma SetIsFreeIff(m: Model, k: Kernel, name: string)
    requires GoodConfig(m) && CleanKernel(k) && PatchesSilent(m, name)
    ensures (forall t, c :: !Referenced(AfterKernel(m, k), t, c, name)) <==>
            && (forall t, c | t in m && c in m[t] && m[t][c].OverrideModel? :: !SomeMentions(m[t][c].rules, name))
            && (forall t, c | Referenced(k, t, c, name) :: t in m && c in m[t] && !m[t][c].PatchModel?)
  {
    forall t, c
      ensures Referenced(AfterKernel(m, k), t, c, name) <==>
              if t in m && c in m[t] && m[t][c].DeleteModel? then false
              else if t in m && c in m[t] && m[t][c].OverrideModel? then SomeMentions(m[t][c].rules, name)
              else Referenced(k, t, c, name)
    {
      ReferencedAfter(m, k, t, c, name);
    }
  }

  // ---- A commit that was cut off ----

  /** Tables are applied one by one: each chain is as after the commit or as before it. */
  lemma PartlyByChain(visited: set<string>, m: Model, k: Kernel, t: string, c: string)
    requires GoodConfig(m) && CleanKernel(k)
    ensures ChainAt(Partly(visited, m, k), t, c) ==
            if t in visited then ChainAt(AfterKernel(m, k), t, c) else ChainAt(k, t, c)
  {
    PartlyAt(visited, m, k, t);
    PartlyAt(m.Keys, m, k, t);
  }

  lemma PartlyIsClean(visited: set<string>, m: Model, k: Kernel)
    requires GoodConfig(m) && CleanKernel(k)
    ensures CleanKernel(Partly(visited, m, k))
  {
    var out := Partly(visited, m, k);
    AfterKernelIsClean(m, k);
    forall t, c | t in out && c in out[t]
      ensures CleanRules(out[t][c])
    {
      PartlyByChain(visited, m, k, t, c);
      assert ChainAt(out, t, c) == Some(out[t][c]);
    }
  }
}
