/**
  Address ranges of CIDR networks, and the search for overlapping subnet rules.
 */
module Conflicts {
  import opened Text
  import opened TimedSets
  import opened Words
  import IntervalTree

  type Interval = IntervalTree.Interval

  datatype Range = Range(start: nat, end: nat)

  // ---- Ranges ----

  /** The first number of the aligned block of `p` numbers that holds `x`. */
  function Aligned(x: nat, p: nat): (start: nat)
    requires p > 0
  {
    x - x % p
  }

  /** Clearing the host bits and setting them, as arithmetic. */
  function RangeOf(ip: nat, hostBits: nat): Range
  {
    var p := Pow2(hostBits);
    Range(Aligned(ip, p), Aligned(ip, p) + p - 1)
  }

  function IPv4Range(ip: nat, prefix: int): Option<Range>
  {
    if prefix < 0 || prefix > 32 then None else Some(RangeOf(ip, 32 - prefix))
  }

  /** As written: a prefix of 0 gives an empty host mask, so the range is one address. */
  function IPv6HostBits(prefix: nat): (bits: nat)
    requires prefix <= 128
  {
    if prefix == 0 then 0 else 128 - prefix
  }

  function IPv6Range(ip: nat, prefix: int): Option<Range>
  {
    if prefix < 0 || prefix > 128 then None else Some(RangeOf(ip, IPv6HostBits(prefix)))
  }

  // ---- The bit operations as written ----

  /** `ipv4ToNumber`: four octets shifted into place. */
  function IPv4ToWord(octets: seq<Word>): (w: Word)
    requires |octets| == 4 && forall i | 0 <= i < 4 :: |octets[i]| == 8
    ensures |w| == 32
  {
    Or(Or(Or(Shl(Part(octets[0]), 24), Shl(Part(octets[1]), 16)), Shl(Part(octets[2]), 8)), Part(octets[3]))
  }

  function Part(octet: Word): (w: Word)
    requires |octet| == 8
    ensures |w| == 32
  {
    Zeros(24) + octet
  }

  lemma OctetsInOrder(octets: seq<Word>)
    requires |octets| == 4 && forall i | 0 <= i < 4 :: |octets[i]| == 8
    ensures IPv4ToWord(octets) == octets[0] + octets[1] + octets[2] + octets[3]
  {
  }

  function IPv4Mask(prefix: nat): (mask: Word)
    requires prefix <= 32
    ensures |mask| == 32 && mask == Ones(prefix) + Zeros(32 - prefix)
  {
    if prefix == 0 then Zeros(32) else Shl(Ones(32), 32 - prefix)
  }

  /** The host bits of an IPv6 network, none of them for prefix 0. */
  function IPv6Mask(prefix: nat): (mask: Word)
    requires prefix <= 128
    ensures |mask| == 128 && mask == Zeros(128 - IPv6HostBits(prefix)) + Ones(IPv6HostBits(prefix))
  {
    if prefix == 0 then Zeros(128) else Zeros(prefix) + Ones(128 - prefix)
  }

  /** `getIPv4Range` on a 32-bit word. */
  function IPv4RangeAsWritten(ip: Word, prefix: nat): Range
    requires |ip| == 32 && prefix <= 32
  {
    var mask := IPv4Mask(prefix);
    var start := And(ip, mask);
    Range(Value(start), Value(Or(start, And(Not(mask), Ones(32)))))
  }

  /** `getIPv6Range` on a 128-bit word. */
  function IPv6RangeAsWritten(ip: Word, prefix: nat): Range
    requires |ip| == 128 && prefix <= 128
  {
    var mask := IPv6Mask(prefix);
    var start := And(ip, And(Not(mask), Ones(128)));
    Range(Value(start), Value(Or(start, mask)))
  }

  lemma MaskedBits(ip: Word, keep: Word, host: Word, n: nat)
    requires n <= |ip| == |keep| == |host|
    requires keep == Ones(n) + Zeros(|ip| - n) && host == Zeros(n) + Ones(|ip| - n)
    ensures And(ip, keep) == ip[..n] + Zeros(|ip| - n)
    ensures Or(And(ip, keep), host) == ip[..n] + Ones(|ip| - n)
  {
  }

  lemma MaskedRange(ip: Word, n: nat, start: Word, end: Word)
    requires n <= |ip| && start == ip[..n] + Zeros(|ip| - n) && end == ip[..n] + Ones(|ip| - n)
    ensures Range(Value(start), Value(end)) == RangeOf(Value(ip), |ip| - n)
  {
    var high, low := ip[..n], ip[n..];
    assert ip == high + low && |low| == |ip| - n;
    RangeOfParts(high, low);
  }

  lemma RangeOfParts(high: Word, low: Word)
    ensures Range(Value(high + Zeros(|low|)), Value(high + Ones(|low|))) == RangeOf(Value(high + low), |low|)
  {
    LowBits(high, low);
  }

  lemma Complement(mask: Word, first: Word, last: Word)
    requires mask == first + last
    ensures And(Not(mask), Ones(|mask|)) == Not(first) + Not(last)
  {
  }

  lemma NotOnes(n: nat)
    ensures Not(Ones(n)) == Zeros(n) && Not(Zeros(n)) == Ones(n)
  {
  }

  lemma IPv4HostBits(prefix: nat)
    requires prefix <= 32
    ensures And(Not(IPv4Mask(prefix)), Ones(32)) == Zeros(prefix) + Ones(32 - prefix)
  {
    Complement(IPv4Mask(prefix), Ones(prefix), Zeros(32 - prefix));
    NotOnes(prefix);
    NotOnes(32 - prefix);
  }

  lemma IPv6NetBits(prefix: nat)
    requires prefix <= 128
    ensures And(Not(IPv6Mask(prefix)), Ones(128)) == Ones(128 - IPv6HostBits(prefix)) + Zeros(IPv6HostBits(prefix))
  {
    var bits := IPv6HostBits(prefix);
    Complement(IPv6Mask(prefix), Zeros(128 - bits), Ones(bits));
    NotOnes(128 - bits);
    NotOnes(bits);
  }

  /** For all words and all 33 prefixes the IPv4 expression is the network's range. */
  lemma IPv4AsWritten(ip: Word, prefix: nat)
    requires |ip| == 32 && prefix <= 32
    ensures Some(IPv4RangeAsWritten(ip, prefix)) == IPv4Range(Value(ip), prefix)
  {
    var mask := IPv4Mask(prefix);
    var host := And(Not(mask), Ones(32));
    IPv4HostBits(prefix);
    MaskedBits(ip, mask, host, prefix);
    MaskedRange(ip, prefix, And(ip, mask), Or(And(ip, mask), host));
  }

  lemma IPv6AsWritten(ip: Word, prefix: nat)
    requires |ip| == 128 && prefix <= 128
    ensures Some(IPv6RangeAsWritten(ip, prefix)) == IPv6Range(Value(ip), prefix)
  {
    var mask, bits := IPv6Mask(prefix), IPv6HostBits(prefix);
    var keep := And(Not(mask), Ones(128));
    IPv6NetBits(prefix);
    MaskedBits(ip, keep, mask, 128 - bits);
    MaskedRange(ip, 128 - bits, And(ip, keep), Or(And(ip, keep), mask));
  }

  predicate InRange(ip: nat, r: Range) { r.start <= ip <= r.end }

  predicate RangesOverlap(a: Range, b: Range) { a.start <= b.end && b.start <= a.end }

  predicate Contains(a: Range, b: Range) { a.start <= b.start && b.end <= a.end }

  lemma DivMod(x: nat, p: nat)
    requires p > 0
    ensures x == p * (x / p) + x % p
  {
  }

  /** Two numbers are within one aligned block exactly if they agree above it. */
  lemma SameBlock(x: nat, y: nat, p: nat)
    requires p > 0
    ensures x - x % p <= y <= x - x % p + p - 1 <==> x - x % p == y - y % p
  {
    var d := y / p - x / p;
    DivMod(x, p);
    DivMod(y, p);
    assert p * d == (y - y % p) - (x - x % p);
    Stretch(p, d);
    Stretch(p, 0 - d);
    assert p * (0 - d) == 0 - p * d;
  }

  /** A range holds exactly the addresses that share the network's prefix. */
  lemma RangeIsNetwork(ip: nat, width: nat, prefix: nat, x: nat)
    requires prefix <= width
    ensures InRange(x, RangeOf(ip, width - prefix)) <==> Mask(x, prefix, width) == Mask(ip, prefix, width)
  {
    SameBlock(ip, x, Pow2(width - prefix));
  }

  lemma {:induction false} Pow2Grows(i: nat, j: nat)
    requires i < j
    ensures Pow2(i) < Pow2(j)
  {
    if i + 1 < j {
      Pow2Grows(i, j - 1);
    }
  }

  lemma RangeTellsHostBits(ip: nat, i: nat, j: nat)
    requires RangeOf(ip, i) == RangeOf(ip, j)
    ensures i == j
  {
    if i < j {
      Pow2Grows(i, j);
    } else if j < i {
      Pow2Grows(j, i);
    }
  }

  /** The IPv6 range is the network's exactly if the prefix is not 0. */
  lemma IPv6RangeIsNetworkIff(ip: nat, prefix: nat)
    requires prefix <= 128
    ensures IPv6Range(ip, prefix) == Some(RangeOf(ip, 128 - prefix)) <==> prefix != 0
  {
    if RangeOf(ip, IPv6HostBits(prefix)) == RangeOf(ip, 128 - prefix) {
      RangeTellsHostBits(ip, IPv6HostBits(prefix), 128 - prefix);
    }
  }

  lemma {:induction false} Pow2Divides(i: nat, j: nat) returns (k: nat)
    requires i <= j
    ensures Pow2(j) == Pow2(i) * k && k >= 1
  {
    if i == j {
      k := 1;
    } else {
      k := Pow2Divides(i, j - 1);
      assert Pow2(j) == Pow2(i) * (2 * k);
      k := 2 * k;
    }
  }

  /** Blocks of one size and blocks of a multiple of it are nested or apart. */
  lemma AlignedBlocks(p: nat, k: nat, q: nat, r: nat)
    requires p > 0 && k > 0
    requires p * q <= p * k * r + p * k - 1 && p * k * r <= p * q + p - 1
    ensures p * k * r <= p * q && p * q + p <= p * k * r + p * k
  {
    var below := q - k * r;
    assert p * below == p * q - p * k * r;
    Stretch(p, below);
    Stretch(p, 0 - below);
    assert p * (0 - below) == 0 - p * below;
    var above := k * r + k - q;
    assert p * above == p * k * r + p * k - p * q;
    Stretch(p, above);
    Stretch(p, 0 - above);
    assert p * (0 - above) == 0 - p * above;
  }

  lemma NestedIfOverlapping(a: nat, i: nat, b: nat, j: nat)
    requires i <= j && RangesOverlap(RangeOf(a, i), RangeOf(b, j))
    ensures Contains(RangeOf(b, j), RangeOf(a, i))
  {
    var k := Pow2Divides(i, j);
    BlocksNest(a, b, Pow2(i), Pow2(j), k);
  }

  lemma BlocksNest(a: nat, b: nat, p: nat, n: nat, k: nat)
    requires p > 0 && k > 0 && n == p * k
    requires Aligned(a, p) <= Aligned(b, n) + n - 1 && Aligned(b, n) <= Aligned(a, p) + p - 1
    ensures Aligned(b, n) <= Aligned(a, p) && Aligned(a, p) + p <= Aligned(b, n) + n
  {
    DivMod(a, p);
    DivMod(b, n);
    AlignedBlocks(p, k, a / p, b / n);
  }

  /** Two IPv4 networks overlap exactly if one contains the other. */
  lemma IPv4OverlapIffNested(a: nat, p: nat, b: nat, q: nat)
    requires p <= 32 && q <= 32
    ensures var x, y := IPv4Range(a, p).value, IPv4Range(b, q).value;
            RangesOverlap(x, y) <==> Contains(x, y) || Contains(y, x)
  {
    var x, y := IPv4Range(a, p).value, IPv4Range(b, q).value;
    if RangesOverlap(x, y) {
      if p >= q {
        NestedIfOverlapping(a, 32 - p, b, 32 - q);
      } else {
        NestedIfOverlapping(b, 32 - q, a, 32 - p);
      }
    }
  }

  // ---- Overlapping rules ----

  /** A subnet rule as the search sees it. */
  datatype RuleRef = RuleRef(ruleId: string, pattern: string)

  /** Two rules, by their places in the list. */
  datatype ConflictPair = ConflictPair(a: nat, b: nat)

  type Ranger = string -> Option<Range>

  predicate StringLess(a: string, b: string)
  {
    if b == "" then false
    else if a == "" then true
    else a[0] < b[0] || (a[0] == b[0] && StringLess(a[1..], b[1..]))
  }

  /** Both ids in order, joined by a colon. */
  function PairKey(a: string, b: string): string
  {
    if StringLess(b, a) then b + ":" + a else a + ":" + b
  }

  lemma {:induction false} LessIsTotal(a: string, b: string)
    ensures !(StringLess(a, b) && StringLess(b, a))
    ensures StringLess(a, b) || StringLess(b, a) || a == b
  {
    if a != "" && b != "" {
      LessIsTotal(a[1..], b[1..]);
      assert a == [a[0]] + a[1..] && b == [b[0]] + b[1..];
    }
  }

  lemma PairKeyIsUnordered(a: string, b: string)
    ensures PairKey(a, b) == PairKey(b, a)
  {
    LessIsTotal(a, b);
  }

  lemma SplitKey(a: string, b: string)
    requires ':' !in a && ':' !in b
    ensures Split(a + ":" + b, ':') == [a, b]
  {
    assert Join([a, b], ':') == a + ":" + b;
    SplitJoin([a, b], ':');
  }

  /** On ids without a colon the key names the unordered pair. */
  lemma PairKeyNamesPair(a: string, b: string, c: string, d: string)
    requires ':' !in a && ':' !in b && ':' !in c && ':' !in d
    requires PairKey(a, b) == PairKey(c, d)
    ensures (a == c && b == d) || (a == d && b == c)
  {
    SplitKey(a, b);
    SplitKey(b, a);
    SplitKey(c, d);
    SplitKey(d, c);
  }

  /** Two rules with different ids whose networks overlap. */
  ghost predicate Conflicting(rules: seq<RuleRef>, range: Ranger, i: nat, j: nat)
  {
    && i < |rules| && j < |rules| && rules[i].ruleId != rules[j].ruleId
    && range(rules[i].pattern).Some? && range(rules[j].pattern).Some?
    && RangesOverlap(range(rules[i].pattern).value, range(rules[j].pattern).value)
  }

  /** The intervals of the first `n` rules that have a range. */
  function Stored(rules: seq<RuleRef>, range: Ranger, n: nat): seq<Interval>
    requires n <= |rules|
  {
    if n == 0 then []
    else
      var r := range(rules[n - 1].pattern);
      Stored(rules, range, n - 1) + if r.Some? then [IntervalTree.Interval(r.value.start, r.value.end, n - 1)] else []
  }

  predicate Meets(rules: seq<RuleRef>, range: Ranger, d: nat, start: int, end: int)
  {
    && d < |rules| && range(rules[d].pattern).Some?
    && range(rules[d].pattern).value.start <= end && start <= range(rules[d].pattern).value.end
  }

  lemma {:induction false} StoredHits(rules: seq<RuleRef>, range: Ranger, n: nat, start: int, end: int, d: nat)
    requires n <= |rules|
    ensures IntervalTree.Hits(Stored(rules, range, n), start, end, d) ==
            if d < n && Meets(rules, range, d, start, end) then 1 else 0
  {
    if n > 0 {
      StoredHits(rules, range, n - 1, start, end, d);
      var r := range(rules[n - 1].pattern);
      if r.Some? {
        var last := IntervalTree.Interval(r.value.start, r.value.end, n - 1);
        IntervalTree.HitsAppend(Stored(rules, range, n - 1), [last], start, end, d);
      } else {
        assert Stored(rules, range, n - 1) + [] == Stored(rules, range, n - 1);
      }
    }
  }

  lemma {:induction false} TimesIsMember(s: seq<nat>, d: nat)
    ensures IntervalTree.Times(s, d) > 0 <==> d in s
  {
    if s != [] {
      TimesIsMember(s[1..], d);
    }
  }

  function KeyOf(rules: seq<RuleRef>, p: ConflictPair): string
    requires p.a < |rules| && p.b < |rules|
  {
    PairKey(rules[p.a].ruleId, rules[p.b].ruleId)
  }

  /** All pairs are conflicts, each under a key of its own, and `seen` are the keys. */
  ghost predicate Recorded(rules: seq<RuleRef>, range: Ranger, pairs: seq<ConflictPair>, seen: set<string>)
  {
    && (forall k | 0 <= k < |pairs| :: Conflicting(rules, range, pairs[k].a, pairs[k].b))
    && (forall k, l | 0 <= k < l < |pairs| :: KeyOf(rules, pairs[k]) != KeyOf(rules, pairs[l]))
    && (forall key :: key in seen <==> exists k | 0 <= k < |pairs| :: KeyOf(rules, pairs[k]) == key)
  }

  /** The conflicts of rule `i` with the rules listed in `others` were seen. */
  ghost predicate SeenAmong(rules: seq<RuleRef>, range: Ranger, i: nat, others: seq<nat>, seen: set<string>)
  {
    forall m | 0 <= m < |others| ::
      Conflicting(rules, range, i, others[m]) ==> PairKey(rules[i].ruleId, rules[others[m]].ruleId) in seen
  }

  ghost predicate SeenAll(rules: seq<RuleRef>, range: Ranger, n: nat, seen: set<string>)
  {
    forall i: nat, j: nat | i < n && Conflicting(rules, range, i, j) ::
      PairKey(rules[i].ruleId, rules[j].ruleId) in seen
  }

  lemma RecordOneMore(rules: seq<RuleRef>, range: Ranger, pairs: seq<ConflictPair>, seen: set<string>, p: ConflictPair)
    requires Recorded(rules, range, pairs, seen) && Conflicting(rules, range, p.a, p.b) && KeyOf(rules, p) !in seen
    ensures Recorded(rules, range, pairs + [p], seen + {KeyOf(rules, p)})
  {
    var more := pairs + [p];
    forall key | key in seen
      ensures exists k | 0 <= k < |more| :: KeyOf(rules, more[k]) == key
    {
      var k :| 0 <= k < |pairs| && KeyOf(rules, pairs[k]) == key;
      assert more[k] == pairs[k];
    }
    assert more[|pairs|] == p;
  }

  /** One pair's ids are the other's, in either order. */
  predicate SamePair(p: ConflictPair, i: nat, j: nat) { (p.a == i && p.b == j) || (p.a == j && p.b == i) }

  ghost predicate ReportedOnce(pairs: seq<ConflictPair>, i: nat, j: nat)
  {
    && (exists k | 0 <= k < |pairs| :: SamePair(pairs[k], i, j))
    && (forall k, l | 0 <= k < l < |pairs| :: !(SamePair(pairs[k], i, j) && SamePair(pairs[l], i, j)))
  }

  /** No two different pairs of rules share a key. */
  ghost predicate KeysTellPairs(rules: seq<RuleRef>)
  {
    forall i: nat, j: nat, k: nat, l: nat
      {:trigger PairKey(rules[i].ruleId, rules[j].ruleId), PairKey(rules[k].ruleId, rules[l].ruleId)} |
      i < |rules| && j < |rules| && k < |rules| && l < |rules|
      && rules[i].ruleId != rules[j].ruleId && rules[k].ruleId != rules[l].ruleId
      && PairKey(rules[i].ruleId, rules[j].ruleId) == PairKey(rules[k].ruleId, rules[l].ruleId) ::
        SamePair(ConflictPair(i, j), k, l)
  }

  /** Ids as the program makes them: hexadecimal digits. */
  predicate IsHexId(id: string) { forall i | 0 <= i < |id| :: id[i] in "0123456789abcdef" }

  lemma HexIdsTellPairs(rules: seq<RuleRef>)
    requires forall i, j | 0 <= i < j < |rules| :: rules[i].ruleId != rules[j].ruleId
    requires forall i | 0 <= i < |rules| :: IsHexId(rules[i].ruleId)
    ensures KeysTellPairs(rules)
  {
    forall i: nat, j: nat, k: nat, l: nat |
      i < |rules| && j < |rules| && k < |rules| && l < |rules|
      && PairKey(rules[i].ruleId, rules[j].ruleId) == PairKey(rules[k].ruleId, rules[l].ruleId)
      ensures SamePair(ConflictPair(i, j), k, l)
    {
      assert ':' !in "0123456789abcdef";
      PairKeyNamesPair(rules[i].ruleId, rules[j].ruleId, rules[k].ruleId, rules[l].ruleId);
    }
  }

  /** What a search leaves: its pairs are recorded, and every conflict's key was seen. */
  ghost predicate SearchResult(rules: seq<RuleRef>, range: Ranger, pairs: seq<ConflictPair>)
  {
    exists seen :: Recorded(rules, range, pairs, seen) && SeenAll(rules, range, |rules|, seen)
  }

  ghost predicate Complete(rules: seq<RuleRef>, range: Ranger, pairs: seq<ConflictPair>)
  {
    forall i: nat, j: nat | Conflicting(rules, range, i, j) :: ReportedOnce(pairs, i, j)
  }

  lemma RecordedOnce(rules: seq<RuleRef>, range: Ranger, pairs: seq<ConflictPair>, seen: set<string>, i: nat, j: nat)
    requires KeysTellPairs(rules) && Recorded(rules, range, pairs, seen) && Conflicting(rules, range, i, j)
    requires PairKey(rules[i].ruleId, rules[j].ruleId) in seen
    ensures ReportedOnce(pairs, i, j)
  {
    PairKeyIsUnordered(rules[i].ruleId, rules[j].ruleId);
    var key := PairKey(rules[i].ruleId, rules[j].ruleId);
    var k :| 0 <= k < |pairs| && KeyOf(rules, pairs[k]) == key;
    assert SamePair(pairs[k], i, j);
    forall l | 0 <= l < |pairs| && SamePair(pairs[l], i, j)
      ensures KeyOf(rules, pairs[l]) == key
    {
    }
  }

  lemma ResultIsComplete(rules: seq<RuleRef>, range: Ranger, pairs: seq<ConflictPair>)
    requires KeysTellPairs(rules) && SearchResult(rules, range, pairs)
    ensures Complete(rules, range, pairs)
  {
    var seen :| Recorded(rules, range, pairs, seen) && SeenAll(rules, range, |rules|, seen);
    forall i: nat, j: nat | Conflicting(rules, range, i, j)
      ensures ReportedOnce(pairs, i, j)
    {
      RecordedOnce(rules, range, pairs, seen, i, j);
    }
  }

  /** Of two conflicts with one key a search reports both only if they are the same. */
  lemma SharedKeyIsOnePair(rules: seq<RuleRef>, range: Ranger, pairs: seq<ConflictPair>, i: nat, j: nat, k: nat, l: nat)
    requires SearchResult(rules, range, pairs)
    requires Conflicting(rules, range, i, j) && Conflicting(rules, range, k, l)
    requires PairKey(rules[i].ruleId, rules[j].ruleId) == PairKey(rules[k].ruleId, rules[l].ruleId)
    requires ReportedOnce(pairs, i, j) && ReportedOnce(pairs, k, l)
    ensures SamePair(ConflictPair(i, j), k, l)
  {
    PairKeyIsUnordered(rules[i].ruleId, rules[j].ruleId);
    PairKeyIsUnordered(rules[k].ruleId, rules[l].ruleId);
    var x :| 0 <= x < |pairs| && SamePair(pairs[x], i, j);
    var y :| 0 <= y < |pairs| && SamePair(pairs[y], k, l);
    assert KeyOf(rules, pairs[x]) == KeyOf(rules, pairs[y]);
  }

  /** There is always something a search can leave. */
  lemma SomeResult(rules: seq<RuleRef>, range: Ranger) returns (pairs: seq<ConflictPair>)
    ensures SearchResult(rules, range, pairs)
  {
    var seen: set<string>;
    pairs, seen := [], {};
    for i := 0 to |rules|
      invariant Recorded(rules, range, pairs, seen) && SeenAll(rules, range, i, seen)
    {
      pairs, seen := SomeRow(rules, range, i, pairs, seen);
    }
  }

  lemma SomeRow(rules: seq<RuleRef>, range: Ranger, i: nat, before: seq<ConflictPair>, known: set<string>)
    returns (pairs: seq<ConflictPair>, seen: set<string>)
    requires i < |rules| && Recorded(rules, range, before, known) && SeenAll(rules, range, i, known)
    ensures Recorded(rules, range, pairs, seen) && SeenAll(rules, range, i + 1, seen)
  {
    pairs, seen := before, known;
    for j := 0 to |rules|
      invariant Recorded(rules, range, pairs, seen) && known <= seen && RowSeen(rules, range, i, j, seen)
    {
      ghost var sofar := seen;
      pairs, seen := SomeCell(rules, range, i, j, pairs, seen);
      RowSeenNext(rules, range, i, j, sofar, seen);
    }
    AllSeenNext(rules, range, i, known, seen);
  }

  /** The conflicts of rule `i` with the first `n` rules were seen. */
  ghost predicate RowSeen(rules: seq<RuleRef>, range: Ranger, i: nat, n: nat, seen: set<string>)
  {
    forall k: nat | k < n && Conflicting(rules, range, i, k) :: PairKey(rules[i].ruleId, rules[k].ruleId) in seen
  }

  lemma RowSeenNext(rules: seq<RuleRef>, range: Ranger, i: nat, n: nat, sofar: set<string>, seen: set<string>)
    requires RowSeen(rules, range, i, n, sofar) && sofar <= seen
    requires Conflicting(rules, range, i, n) ==> PairKey(rules[i].ruleId, rules[n].ruleId) in seen
    ensures RowSeen(rules, range, i, n + 1, seen)
  {
  }

  lemma AllSeenNext(rules: seq<RuleRef>, range: Ranger, i: nat, known: set<string>, seen: set<string>)
    requires SeenAll(rules, range, i, known) && known <= seen && RowSeen(rules, range, i, |rules|, seen)
    ensures SeenAll(rules, range, i + 1, seen)
  {
  }

  lemma SomeCell(rules: seq<RuleRef>, range: Ranger, i: nat, j: nat, before: seq<ConflictPair>, known: set<string>)
    returns (pairs: seq<ConflictPair>, seen: set<string>)
    requires i < |rules| && j < |rules| && Recorded(rules, range, before, known)
    ensures Recorded(rules, range, pairs, seen) && known <= seen
    ensures Conflicting(rules, range, i, j) ==> PairKey(rules[i].ruleId, rules[j].ruleId) in seen
  {
    pairs, seen := before, known;
    var key := PairKey(rules[i].ruleId, rules[j].ruleId);
    if Conflicting(rules, range, i, j) && key !in seen {
      RecordOneMore(rules, range, pairs, seen, ConflictPair(i, j));
      pairs, seen := pairs + [ConflictPair(i, j)], seen + {key};
    }
  }

  /** The search is complete for all networks the rules may name. */
  ghost predicate AlwaysComplete(rules: seq<RuleRef>)
  {
    forall range: Ranger, pairs | SearchResult(rules, range, pairs) :: Complete(rules, range, pairs)
  }

  lemma CompleteSearchTellsPairs(rules: seq<RuleRef>)
    requires AlwaysComplete(rules)
    ensures KeysTellPairs(rules)
  {
    var everywhere: Ranger := s => Some(Range(0, 0));
    var pairs := SomeResult(rules, everywhere);
    assert Complete(rules, everywhere, pairs);
    forall i: nat, j: nat, k: nat, l: nat |
      i < |rules| && j < |rules| && k < |rules| && l < |rules|
      && rules[i].ruleId != rules[j].ruleId && rules[k].ruleId != rules[l].ruleId
      && PairKey(rules[i].ruleId, rules[j].ruleId) == PairKey(rules[k].ruleId, rules[l].ruleId)
      ensures SamePair(ConflictPair(i, j), k, l)
    {
      SharedKeyIsOnePair(rules, everywhere, pairs, i, j, k, l);
    }
  }

  /** Exactly the lists on which it is: no two different pairs of rules share a key. */
  lemma SearchIsCompleteIff(rules: seq<RuleRef>)
    ensures AlwaysComplete(rules) <==> KeysTellPairs(rules)
  {
    if KeysTellPairs(rules) {
      forall range: Ranger, pairs | SearchResult(rules, range, pairs)
        ensures Complete(rules, range, pairs)
      {
        ResultIsComplete(rules, range, pairs);
      }
    }
    if AlwaysComplete(rules) {
      CompleteSearchTellsPairs(rules);
    }
  }

  method FindSubnetConflicts(rules: seq<RuleRef>, range: Ranger) returns (pairs: seq<ConflictPair>)
    ensures forall k | 0 <= k < |pairs| :: Conflicting(rules, range, pairs[k].a, pairs[k].b)
    ensures SearchResult(rules, range, pairs)
    ensures KeysTellPairs(rules) ==> Complete(rules, range, pairs)
  {
    pairs := [];
    if |rules| < 2 {
      assert Recorded(rules, range, [], {}) && SeenAll(rules, range, |rules|, {});
      return;
    }
    var tree := new IntervalTree.IntervalTree();
    for i := 0 to |rules|
      invariant tree.Valid() && fresh(tree.Repr) && tree.inserted == Stored(rules, range, i)
    {
      var r := range(rules[i].pattern);
      if r.Some? {
        tree.Insert(r.value.start, r.value.end, i);
      }
    }
    tree.Build();
    var seen: set<string> := {};
    for i := 0 to |rules|
      invariant tree.Valid() && tree.isBuilt && tree.inserted == Stored(rules, range, |rules|)
      invariant Recorded(rules, range, pairs, seen) && SeenAll(rules, range, i, seen)
    {
      var r := range(rules[i].pattern);
      if r.None? {
        continue;
      }
      var matches := tree.Query(r.value.start, r.value.end);
      MatchesMeet(rules, range, matches.value, r.value.start, r.value.end);
      pairs, seen := RecordMatches(rules, range, i, matches.value, pairs, seen);
    }
    assert SearchResult(rules, range, pairs);
    if KeysTellPairs(rules) {
      ResultIsComplete(rules, range, pairs);
    }
  }

  lemma MatchesMeet(rules: seq<RuleRef>, range: Ranger, matches: seq<nat>, start: int, end: int)
    requires forall d ::
             IntervalTree.Times(matches, d) == IntervalTree.Hits(Stored(rules, range, |rules|), start, end, d)
    ensures forall d :: d in matches <==> Meets(rules, range, d, start, end)
  {
    forall d
      ensures d in matches <==> Meets(rules, range, d, start, end)
    {
      TimesIsMember(matches, d);
      StoredHits(rules, range, |rules|, start, end, d);
    }
  }

  method RecordMatches(rules: seq<RuleRef>, range: Ranger, i: nat, matches: seq<nat>, pairs: seq<ConflictPair>,
                       seen: set<string>)
    returns (pairs': seq<ConflictPair>, seen': set<string>)
    requires i < |rules| && range(rules[i].pattern).Some? && Recorded(rules, range, pairs, seen)
    requires forall d :: d in matches <==>
               Meets(rules, range, d, range(rules[i].pattern).value.start, range(rules[i].pattern).value.end)
    ensures Recorded(rules, range, pairs', seen') && seen <= seen'
    ensures forall j: nat | Conflicting(rules, range, i, j) :: PairKey(rules[i].ruleId, rules[j].ruleId) in seen'
  {
    pairs', seen' := pairs, seen;
    for m := 0 to |matches|
      invariant Recorded(rules, range, pairs', seen') && seen <= seen'
      invariant SeenAmong(rules, range, i, matches[..m], seen')
    {
      var j := matches[m];
      assert j in matches;
      assert matches[..m + 1] == matches[..m] + [j];
      if rules[j].ruleId == rules[i].ruleId {
        continue;
      }
      var key := PairKey(rules[i].ruleId, rules[j].ruleId);
      if key in seen' {
        continue;
      }
      RecordOneMore(rules, range, pairs', seen', ConflictPair(i, j));
      pairs', seen' := pairs' + [ConflictPair(i, j)], seen' + {key};
    }
    assert matches[..|matches|] == matches;
    forall j: nat | Conflicting(rules, range, i, j)
      ensures PairKey(rules[i].ruleId, rules[j].ruleId) in seen'
    {
      assert j in matches;
      var m :| 0 <= m < |matches| && matches[m] == j;
      assert Conflicting(rules, range, i, matches[m]);
    }
  }
}
