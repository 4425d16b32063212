/**
  Kernel sets of networks with timeouts, and how they are brought to a wanted content.
  One module serves both address families: the width is 32 or 128.
 */
module TimedSets {
  import opened Text

  /** A network as the program writes it: prefix length 0 stands for a single address. */
  datatype Subnet = Subnet(addr: nat, cidr: nat)

  /** `Permanent` is the top of the order of timeouts. */
  datatype Timeout = Permanent | Secs(seconds: nat)

  function Pow2(n: nat): (p: nat)
    ensures p >= 1
  {
    if n == 0 then 1 else 2 * Pow2(n - 1)
  }

  /** The address with only its first `prefix` bits kept. */
  function Mask(addr: nat, prefix: nat, width: nat): (masked: nat)
    requires prefix <= width
    ensures masked <= addr < masked + Pow2(width - prefix) && masked % Pow2(width - prefix) == 0
    ensures prefix == width ==> masked == addr
  {
    RestIsLess(addr, Pow2(width - prefix));
    FloorHasNoRest(addr, Pow2(width - prefix));
    addr - addr % Pow2(width - prefix)
  }

  lemma RestIsLess(x: nat, p: nat)
    requires p > 0
    ensures 0 <= x % p <= x && (p == 1 ==> x % p == 0)
  {
    if x < p {
      assert x % p == x;
    }
  }

  lemma MaskTwice(addr: nat, prefix: nat, width: nat)
    requires prefix <= width
    ensures Mask(Mask(addr, prefix, width), prefix, width) == Mask(addr, prefix, width)
  {
  }

  lemma FloorHasNoRest(x: nat, p: nat)
    requires p > 0
    ensures (x - x % p) % p == 0
  {
    MultipleHasNoRest(x / p, p);
  }

  lemma MultipleHasNoRest(k: nat, p: nat)
    requires p > 0
    ensures (p * k) % p == 0
  {
    var d := k - (p * k) / p;
    assert p * d == (p * k) % p;
    Stretch(p, d);
  }

  lemma Stretch(p: nat, d: int)
    ensures d >= 1 ==> p * d >= p
    ensures d <= 0 ==> p * d <= 0
  {
  }

  // ---- The kernel ----

  /** How the kernel stores a network: the prefix is never 0, host bits are cleared. */
  function Canon(s: Subnet, width: nat): Subnet
    requires s.cidr <= width
  {
    var prefix := if s.cidr == 0 then width else s.cidr;
    Subnet(Mask(s.addr, prefix, width), prefix)
  }

  predicate IsCanonical(s: Subnet, width: nat)
  {
    0 < s.cidr <= width && Mask(s.addr, s.cidr, width) == s.addr
  }

  lemma CanonIsCanonical(s: Subnet, width: nat)
    requires s.cidr <= width && 0 < width
    ensures IsCanonical(Canon(s, width), width)
  {
    MaskTwice(s.addr, if s.cidr == 0 then width else s.cidr, width);
  }

  /** What the kernel makes of a number of seconds, and what the program sends for a timeout. */
  function FromSeconds(seconds: nat): Timeout { if seconds == 0 then Permanent else Secs(seconds) }
  function ToSeconds(t: Timeout): nat { if t.Permanent? then 0 else t.seconds }

  class TimedSet {
    const width: nat
    /** Calls can fail for reasons outside the program. */
    const mayFail: bool
    var entries: map<Subnet, Timeout>

    ghost predicate Valid()
      reads this
    {
      && 0 < width
      && (forall k | k in entries :: IsCanonical(k, width) && entries[k] != Secs(0))
    }

    constructor (width: nat, mayFail: bool)
      requires width > 0
      ensures Valid() && this.width == width && this.mayFail == mayFail && entries == map[]
    {
      this.width, this.mayFail, entries := width, mayFail, map[];
    }

    /** Adding an entry that is there replaces its timeout. */
    method Add(s: Subnet, seconds: nat) returns (ok: bool)
      requires Valid() && s.cidr <= width
      modifies this
      ensures Valid()
      ensures entries == if ok then old(entries)[Canon(s, width) := FromSeconds(seconds)] else old(entries)
      ensures !mayFail ==> ok
    {
      ok := *;
      ok := ok || !mayFail;
      if ok {
        CanonIsCanonical(s, width);
        entries := entries[Canon(s, width) := FromSeconds(seconds)];
      }
    }

    method Del(s: Subnet) returns (ok: bool)
      requires Valid() && s.cidr <= width
      modifies this
      ensures Valid() && entries == if ok then old(entries) - {Canon(s, width)} else old(entries)
      ensures !mayFail ==> ok
    {
      ok := *;
      ok := ok || !mayFail;
      if ok {
        entries := entries - {Canon(s, width)};
      }
    }

    method List() returns (ok: bool, listed: map<Subnet, Timeout>)
      ensures listed == if ok then entries else map[]
      ensures !mayFail ==> ok
    {
      ok := *;
      ok := ok || !mayFail;
      listed := if ok then entries else map[];
    }
  }

  // ---- Passes in which calls may fail ----

  function Look(m: map<Subnet, Timeout>, k: Subnet): Option<Timeout> { if k in m then Some(m[k]) else None }

  /** The keys in `reached` are as in `after`, the others as in `before`. */
  function Partly(before: map<Subnet, Timeout>, after: map<Subnet, Timeout>, reached: set<Subnet>): map<Subnet, Timeout>
  {
    map k | k in before.Keys + after.Keys && (if k in reached then k in after else k in before) ::
      if k in reached then after[k] else before[k]
  }

  lemma PartlyLook(before: map<Subnet, Timeout>, after: map<Subnet, Timeout>, reached: set<Subnet>, k: Subnet)
    ensures Look(Partly(before, after, reached), k) == if k in reached then Look(after, k) else Look(before, k)
  {
  }

  /** A set on its way from `before` to `after`: each key is as before or as it will be. */
  ghost predicate OnTheWay(before: map<Subnet, Timeout>, after: map<Subnet, Timeout>, reached: set<Subnet>,
                           now: map<Subnet, Timeout>)
  {
    forall k :: Look(now, k) == if k in reached then Look(after, k) else Look(before, k)
  }

  lemma SameEntries(a: map<Subnet, Timeout>, b: map<Subnet, Timeout>)
    requires forall k :: Look(a, k) == Look(b, k)
    ensures a == b
  {
    assert forall k :: k in a ==> Look(b, k) == Some(a[k]);
    assert forall k :: k in b ==> Look(a, k) == Some(b[k]);
  }

  lemma OnTheWayIsPartly(before: map<Subnet, Timeout>, after: map<Subnet, Timeout>, reached: set<Subnet>,
                         now: map<Subnet, Timeout>)
    requires OnTheWay(before, after, reached, now)
    ensures now == Partly(before, after, reached)
    ensures before.Keys + after.Keys <= reached ==> now == after
  {
    forall k
      ensures Look(now, k) == Look(Partly(before, after, reached), k)
    {
      PartlyLook(before, after, reached, k);
    }
    SameEntries(now, Partly(before, after, reached));
    if before.Keys + after.Keys <= reached {
      forall k
        ensures Look(now, k) == Look(after, k)
      {
      }
      SameEntries(now, after);
    }
  }

  // ---- Bringing a set to a wanted content ----

  /** The later of two timeouts. */
  function Later(a: Timeout, b: Timeout): (t: Timeout)
    ensures t == a || t == b
    ensures t.Permanent? <==> a.Permanent? || b.Permanent?
    ensures t.Secs? ==> a.seconds <= t.seconds && b.seconds <= t.seconds
  {
    if a.Permanent? || (b.Secs? && b.seconds < a.seconds) then a else b
  }

  /** An entry with timeout `t` lives at least as long as one with timeout `a`. */
  predicate Outlives(t: Timeout, a: Timeout) { t.Permanent? || (a.Secs? && a.seconds <= t.seconds) }

  /** The set has the wanted entries and no others, and each lives as long as it was wanted
      to, or as it would have lived anyway, whichever is longer. */
  ghost predicate HasWanted(now: map<Subnet, Timeout>, before: map<Subnet, Timeout>, want: map<Subnet, Timeout>)
  {
    && now.Keys == want.Keys
    && forall k | k in now ::
         && Outlives(now[k], want[k]) && (k in before ==> Outlives(now[k], before[k]))
         && (now[k] == want[k] || (k in before && now[k] == before[k]))
  }

  /** The wanted entries, each with the later of its present and its wanted timeout. */
  function Synced(have: map<Subnet, Timeout>, want: map<Subnet, Timeout>): (now: map<Subnet, Timeout>)
    ensures HasWanted(now, have, want)
  {
    map k | k in want :: if k in have then Later(have[k], want[k]) else want[k]
  }

  ghost predicate Sendable(want: map<Subnet, Timeout>, width: nat)
  {
    forall k | k in want :: k.cidr <= width && want[k] != Secs(0)
  }

  ghost predicate AllCanonical(want: set<Subnet>, width: nat)
  {
    forall k | k in want :: IsCanonical(k, width)
  }

  ghost predicate Names(want: set<Subnet>, width: nat, k: Subnet)
    requires forall d | d in want :: d.cidr <= width
  {
    exists d :: d in want && Canon(d, width) == k
  }

  /** `sync` removes what it did not want under the very name the kernel lists, so an
      entry stays exactly if it is named by a wanted key and was not listed under an unwanted one. */
  ghost predicate StaysAfterSync(have: map<Subnet, Timeout>, want: map<Subnet, Timeout>, width: nat, k: Subnet)
    requires Sendable(want, width)
  {
    Names(want.Keys, width, k) && (k in have ==> k in want)
  }

  predicate UpToDate(have: map<Subnet, Timeout>, want: map<Subnet, Timeout>, k: Subnet)
    requires k in want
  {
    k in have && (have[k].Permanent? || (want[k].Secs? && want[k].seconds < have[k].seconds))
  }

  /** One pass over a set. Nothing happens if it cannot be listed (not `ok`); a call that
      fails is skipped, and the pass is then not `clean`. */
  method SyncSet(kernel: TimedSet, want: map<Subnet, Timeout>) returns (ok: bool, clean: bool)
    requires kernel.Valid() && Sendable(want, kernel.width)
    modifies kernel
    ensures kernel.Valid() && (clean ==> ok) && (!ok ==> kernel.entries == old(kernel.entries))
    ensures !kernel.mayFail ==> clean
    ensures clean ==>
              forall k :: k in kernel.entries <==> StaysAfterSync(old(kernel.entries), want, kernel.width, k)
    ensures clean && AllCanonical(want.Keys, kernel.width) ==>
              && kernel.entries == Synced(old(kernel.entries), want)
              && HasWanted(kernel.entries, old(kernel.entries), want)
    ensures AllCanonical(want.Keys, kernel.width) ==>
              exists reached ::
                kernel.entries == Partly(old(kernel.entries), Synced(old(kernel.entries), want), reached)
  {
    ghost var before := kernel.entries;
    var have;
    ok, have := kernel.List();
    if !ok {
      OnTheWayIsPartly(before, Synced(before, want), {}, kernel.entries);
      return ok, false;
    }
    var dropped;
    ghost var reached;
    clean, reached := AddWanted(kernel, have, want);
    if clean {
      SyncHalfway(have, want, kernel.width, kernel.entries);
    }
    dropped, reached := DropUnwanted(kernel, have.Keys, want.Keys, reached, have, Synced(have, want));
    clean := clean && dropped;
    if AllCanonical(want.Keys, kernel.width) {
      OnTheWayIsPartly(have, Synced(have, want), reached, kernel.entries);
    }
  }

  method AddWanted(kernel: TimedSet, have: map<Subnet, Timeout>, want: map<Subnet, Timeout>)
    returns (clean: bool, ghost reached: set<Subnet>)
    requires kernel.Valid() && Sendable(want, kernel.width) && have == kernel.entries
    modifies kernel
    ensures kernel.Valid() && reached <= want.Keys && (!kernel.mayFail ==> clean)
    ensures clean ==> Present(have, want, kernel.width, want.Keys, kernel.entries) && reached == want.Keys
    ensures AllCanonical(want.Keys, kernel.width) ==> OnTheWay(have, Synced(have, want), reached, kernel.entries)
  {
    clean, reached := true, {};
    var todo := want.Keys;
    while todo != {}
      invariant kernel.Valid() && todo <= want.Keys && reached <= want.Keys - todo && (!kernel.mayFail ==> clean)
      invariant clean ==> reached == want.Keys - todo && Present(have, want, kernel.width, reached, kernel.entries)
      invariant AllCanonical(want.Keys, kernel.width) ==> OnTheWay(have, Synced(have, want), reached, kernel.entries)
    {
      var k :| k in todo;
      todo := todo - {k};
      if clean {
        PresentStep(have, want, kernel.width, reached, kernel.entries, k, FromSeconds(ToSeconds(want[k])));
        assert want.Keys - todo == reached + {k};
      }
      if AllCanonical(want.Keys, kernel.width) {
        RaiseStep(have, want, kernel.width, reached, kernel.entries, k);
      }
      if UpToDate(have, want, k) {
        reached := reached + {k};
        continue;
      }
      var added := kernel.Add(k, ToSeconds(want[k]));
      if added {
        reached := reached + {k};
      } else {
        clean := false;
      }
    }
    assert want.Keys - {} == want.Keys;
  }

  method DropUnwanted(kernel: TimedSet, have: set<Subnet>, want: set<Subnet>, ghost sofar: set<Subnet>,
                      ghost before: map<Subnet, Timeout>, ghost after: map<Subnet, Timeout>)
    returns (clean: bool, ghost reached: set<Subnet>)
    requires kernel.Valid() && forall h | h in have :: IsCanonical(h, kernel.width)
    requires after.Keys <= want
    modifies kernel
    ensures kernel.Valid() && sofar <= reached && (!kernel.mayFail ==> clean)
    ensures clean ==> kernel.entries == old(kernel.entries) - (have - want) && reached == sofar + (have - want)
    ensures OnTheWay(before, after, sofar, old(kernel.entries)) ==> OnTheWay(before, after, reached, kernel.entries)
  {
    clean, reached := true, sofar;
    var todo := have;
    while todo != {}
      invariant kernel.Valid() && todo <= have && sofar <= reached && (!kernel.mayFail ==> clean)
      invariant clean ==> kernel.entries == old(kernel.entries) - ((have - todo) - want)
                          && reached == sofar + ((have - todo) - want)
      invariant OnTheWay(before, after, sofar, old(kernel.entries)) ==> OnTheWay(before, after, reached, kernel.entries)
    {
      var k :| k in todo;
      ghost var left := todo;
      todo := todo - {k};
      OneLess(have, left, want, k);
      if k in want {
        continue;
      }
      var deleted := kernel.Del(k);
      if deleted {
        reached := reached + {k};
      } else {
        clean := false;
      }
    }
  }

  lemma OneLess(have: set<Subnet>, left: set<Subnet>, want: set<Subnet>, k: Subnet)
    requires left <= have && k in left
    ensures have - (left - {k}) - want == if k in want then have - left - want else have - left - want + {k}
  {
  }

  /** The set holds what it held and what the keys in `done` name. */
  ghost predicate Present(have: map<Subnet, Timeout>, want: map<Subnet, Timeout>, width: nat, done: set<Subnet>,
                          now: map<Subnet, Timeout>)
    requires Sendable(want, width) && done <= want.Keys
  {
    forall k :: k in now <==> k in have || Names(done, width, k)
  }

  lemma PresentStep(have: map<Subnet, Timeout>, want: map<Subnet, Timeout>, width: nat, done: set<Subnet>,
                    now: map<Subnet, Timeout>, k: Subnet, t: Timeout)
    requires 0 < width && Sendable(want, width) && done <= want.Keys && k in want
    requires forall h | h in have :: IsCanonical(h, width)
    requires Present(have, want, width, done, now)
    ensures UpToDate(have, want, k) ==> Present(have, want, width, done + {k}, now)
    ensures Present(have, want, width, done + {k}, now[Canon(k, width) := t])
  {
    NamesOneMore(done, k, width);
  }

  lemma RaiseStep(have: map<Subnet, Timeout>, want: map<Subnet, Timeout>, width: nat, reached: set<Subnet>,
                  now: map<Subnet, Timeout>, k: Subnet)
    requires Sendable(want, width) && k in want && k !in reached
    requires IsCanonical(k, width) && OnTheWay(have, Synced(have, want), reached, now)
    ensures if UpToDate(have, want, k) then OnTheWay(have, Synced(have, want), reached + {k}, now)
            else OnTheWay(have, Synced(have, want), reached + {k},
                          now[Canon(k, width) := FromSeconds(ToSeconds(want[k]))])
  {
    assert Canon(k, width) == k;
    assert FromSeconds(ToSeconds(want[k])) == want[k];
    assert Look(Synced(have, want), k) == Some(if k in have then Later(have[k], want[k]) else want[k]);
  }

  lemma NamesOneMore(done: set<Subnet>, d: Subnet, width: nat)
    requires d.cidr <= width && forall k | k in done :: k.cidr <= width
    ensures forall k :: Names(done + {d}, width, k) <==> Names(done, width, k) || Canon(d, width) == k
  {
    forall k
      ensures Names(done + {d}, width, k) <==> Names(done, width, k) || Canon(d, width) == k
    {
      if Names(done, width, k) {
        var e :| e in done && Canon(e, width) == k;
        assert e in done + {d};
      }
      assert d in done + {d};
    }
  }

  lemma SyncHalfway(have: map<Subnet, Timeout>, want: map<Subnet, Timeout>, width: nat, now: map<Subnet, Timeout>)
    requires Sendable(want, width) && Present(have, want, width, want.Keys, now)
    requires forall h | h in have :: IsCanonical(h, width)
    ensures forall k :: k in now - (have.Keys - want.Keys) <==> StaysAfterSync(have, want, width, k)
  {
    forall k | k in have && k in want
      ensures Names(want.Keys, width, k)
    {
      assert Canon(k, width) == k;
    }
  }

  ghost predicate KeepsWanted(have: map<Subnet, Timeout>, want: map<Subnet, Timeout>, width: nat)
    requires Sendable(want, width)
  {
    forall d | d in want :: StaysAfterSync(have, want, width, Canon(d, width))
  }

  /** Every wanted address is in the set afterwards, whatever was in it before, exactly
      if the wanted keys are closed under the kernel's naming. */
  lemma SyncKeepsWantedIff(want: map<Subnet, Timeout>, width: nat)
    requires 0 < width && Sendable(want, width)
    ensures (forall have: map<Subnet, Timeout> :: KeepsWanted(have, want, width))
            <==> forall d | d in want :: Canon(d, width) in want
  {
    if forall have: map<Subnet, Timeout> :: KeepsWanted(have, want, width) {
      forall d | d in want
        ensures Canon(d, width) in want
      {
        assert KeepsWanted(map[Canon(d, width) := Permanent], want, width);
      }
    }
  }

  /** A single address written with prefix 0 is added and then deleted by one and the same
      pass when it was in the set already. */
  lemma PrefixZeroHostIsLost(addr: nat, t: Timeout)
    requires t != Secs(0)
    ensures var host := Subnet(addr, 32);
            Canon(Subnet(addr, 0), 32) == host
            && !StaysAfterSync(map[host := t], map[Subnet(addr, 0) := t], 32, host)
  {
  }

  // ---- The mirror of the permanent networks ----

  /** The mirrored networks: kept as they are, new ones permanent. */
  function Mirrored(have: map<Subnet, Timeout>, want: set<Subnet>): map<Subnet, Timeout>
  {
    map k | k in want :: if k in have then have[k] else Permanent
  }

  /** What a mirror pass aims at. If the mirror cannot be listed it counts as empty: all is
      added, nothing removed. */
  function MirrorTarget(have: map<Subnet, Timeout>, want: set<Subnet>, listed: bool): map<Subnet, Timeout>
  {
    if listed then Mirrored(have, want) else have + map k | k in want :: Permanent
  }

  method SyncMirror(kernel: TimedSet, want: set<Subnet>) returns (clean: bool)
    requires kernel.Valid() && AllCanonical(want, kernel.width)
    modifies kernel
    ensures kernel.Valid() && (clean ==> kernel.entries == Mirrored(old(kernel.entries), want))
    ensures !kernel.mayFail ==> clean
    ensures exists listed, reached ::
              kernel.entries == Partly(old(kernel.entries), MirrorTarget(old(kernel.entries), want, listed), reached)
  {
    ghost var before := kernel.entries;
    var listed, have := kernel.List();
    ghost var after := MirrorTarget(before, want, listed);
    var added, dropped;
    ghost var reached;
    added, reached := AddMissing(kernel, have, want, before, after);
    if listed {
      dropped, reached := DropUnwanted(kernel, have.Keys, want, reached, before, after);
    } else {
      dropped := false;
    }
    clean := added && dropped;
    OnTheWayIsPartly(before, after, reached, kernel.entries);
  }

  method AddMissing(kernel: TimedSet, have: map<Subnet, Timeout>, want: set<Subnet>,
                    ghost before: map<Subnet, Timeout>, ghost after: map<Subnet, Timeout>)
    returns (clean: bool, ghost reached: set<Subnet>)
    requires kernel.Valid() && AllCanonical(want, kernel.width) && kernel.entries == before
    requires forall k | k in want :: Look(after, k) == if k in have then Look(before, k) else Some(Permanent)
    modifies kernel
    ensures kernel.Valid() && OnTheWay(before, after, reached, kernel.entries)
    ensures (clean ==> reached == want) && (!kernel.mayFail ==> clean)
  {
    clean, reached := true, {};
    var todo := want;
    while todo != {}
      invariant kernel.Valid() && todo <= want && reached <= want - todo && (!kernel.mayFail ==> clean)
      invariant OnTheWay(before, after, reached, kernel.entries)
      invariant clean ==> reached == want - todo
    {
      var k :| k in todo;
      todo := todo - {k};
      if k in have {
        reached := reached + {k};
        continue;
      }
      assert Canon(k, kernel.width) == k;
      var added := kernel.Add(k, 0);
      if added {
        reached := reached + {k};
      } else {
        clean := false;
      }
    }
    assert want - {} == want;
  }
}
