/** The best master clock algorithm: the comparison of two data sets and the choice of the
    best one from a list (IEEE 1588-2008, section 9.3.4). */
module Bmca {
  import opened Bytes

  type ClockIdentity = b: bytes | |b| == 8 witness [0, 0, 0, 0, 0, 0, 0, 0]

  datatype PortIdentity = PortIdentity(clock: ClockIdentity, port: nat)

  datatype Dataset = Dataset(
    priority1: nat, identity: ClockIdentity, clockClass: nat, clockAccuracy: nat, variance: nat,
    priority2: nat, stepsRemoved: nat, sender: PortIdentity, receiver: PortIdentity)

  /** Lexicographic comparison, the shorter first; on octets it is Go's bytes.Compare. */
  function Compare(a: seq<int>, b: seq<int>): (r: int)
    ensures -1 <= r <= 1
  {
    if a == [] && b == [] then 0
    else if a == [] then -1
    else if b == [] then 1
    else if a[0] < b[0] then -1
    else if a[0] > b[0] then 1
    else Compare(a[1..], b[1..])
  }

  /** Negative if a is better, positive if b is better. */
  function DSCmp(a: Dataset, b: Dataset): int {
    var cmpId := Compare(a.identity, b.identity);
    if cmpId != 0 then
      if a.priority1 != b.priority1 then a.priority1 - b.priority1
      else if a.clockClass != b.clockClass then a.clockClass - b.clockClass
      else if a.clockAccuracy != b.clockAccuracy then a.clockAccuracy - b.clockAccuracy
      else if a.variance != b.variance then a.variance - b.variance
      else if a.priority2 != b.priority2 then a.priority2 - b.priority2
      else cmpId
    else if a.stepsRemoved + 1 < b.stepsRemoved then -1
    else if b.stepsRemoved + 1 < a.stepsRemoved then 1
    else if a.stepsRemoved < b.stepsRemoved then -1
    else if a.stepsRemoved > b.stepsRemoved then 1
    else
      var cmpSender := Compare(a.sender.clock, b.sender.clock);
      if cmpSender != 0 then cmpSender
      else if a.sender.port != b.sender.port then a.sender.port - b.sender.port
      else a.receiver.port - b.receiver.port
  }

  function Sign(n: int): int { if n < 0 then -1 else if n > 0 then 1 else 0 }

  /** What a grandmaster announces about itself. */
  function Attributes(d: Dataset): seq<int> {
    [d.priority1, d.clockClass, d.clockAccuracy, d.variance, d.priority2]
  }

  /** How the announcement reached the receiver. */
  function Path(d: Dataset): seq<int> {
    [d.stepsRemoved] + d.sender.clock + [d.sender.port, d.receiver.port]
  }

  function Key(d: Dataset): seq<int> { Attributes(d) + d.identity + Path(d) }

  // ------------------------------------------- the lexicographic total order

  lemma {:induction false} CompareEqual(a: seq<int>, b: seq<int>)
    ensures Compare(a, b) == 0 <==> a == b
  {
    if a != [] && b != [] {
      CompareEqual(a[1..], b[1..]);
      assert a == [a[0]] + a[1..] && b == [b[0]] + b[1..];
    }
  }

  lemma {:induction false} CompareMirror(a: seq<int>, b: seq<int>)
    ensures Compare(a, b) == -Compare(b, a)
  {
    if a != [] && b != [] { CompareMirror(a[1..], b[1..]); }
  }

  lemma {:induction false} CompareTransitive(a: seq<int>, b: seq<int>, c: seq<int>)
    requires Compare(a, b) <= 0 && Compare(b, c) <= 0
    ensures Compare(a, c) <= 0
    ensures Compare(a, b) < 0 || Compare(b, c) < 0 ==> Compare(a, c) < 0
  {
    if a != [] && b != [] && c != [] && a[0] == b[0] == c[0] {
      CompareTransitive(a[1..], b[1..], c[1..]);
    }
  }

  /** Equally long first parts decide unless they are equal. */
  lemma {:induction false} CompareParts(a: seq<int>, x: seq<int>, b: seq<int>, y: seq<int>)
    requires |a| == |b|
    ensures Compare(a + x, b + y) == if Compare(a, b) != 0 then Compare(a, b) else Compare(x, y)
  {
    if a == [] {
      assert a + x == x && b + y == y;
    } else {
      assert (a + x)[1..] == a[1..] + x && (b + y)[1..] == b[1..] + y;
      CompareParts(a[1..], x, b[1..], y);
    }
  }

  lemma KeyCompare(a: Dataset, b: Dataset)
    ensures Compare(Key(a), Key(b)) ==
      if Attributes(a) != Attributes(b) then Compare(Attributes(a), Attributes(b))
      else if a.identity != b.identity then Compare(a.identity, b.identity)
      else Compare(Path(a), Path(b))
  {
    hide Attributes, Path;
    CompareParts(Attributes(a) + a.identity, Path(a), Attributes(b) + b.identity, Path(b)) by {
      AttributesLength(a, b);
    }
    CompareParts(Attributes(a), a.identity, Attributes(b), b.identity) by {
      AttributesLength(a, b);
    }
    CompareEqual(Attributes(a), Attributes(b));
    CompareEqual(a.identity, b.identity);
  }

  lemma AttributesLength(a: Dataset, b: Dataset)
    ensures |Attributes(a)| == |Attributes(b)|
  {
  }

  // ------------------------------------------------- the comparison in use

  lemma AttributesSteps(a: Dataset, b: Dataset)
    ensures Compare(Attributes(a), Attributes(b)) ==
      if a.priority1 != b.priority1 then Sign(a.priority1 - b.priority1)
      else if a.clockClass != b.clockClass then Sign(a.clockClass - b.clockClass)
      else if a.clockAccuracy != b.clockAccuracy then Sign(a.clockAccuracy - b.clockAccuracy)
      else if a.variance != b.variance then Sign(a.variance - b.variance)
      else Sign(a.priority2 - b.priority2)
  {
    CompareHead(a.priority1, [a.clockClass, a.clockAccuracy, a.variance, a.priority2],
                b.priority1, [b.clockClass, b.clockAccuracy, b.variance, b.priority2]);
    CompareHead(a.clockClass, [a.clockAccuracy, a.variance, a.priority2],
                b.clockClass, [b.clockAccuracy, b.variance, b.priority2]);
    CompareHead(a.clockAccuracy, [a.variance, a.priority2], b.clockAccuracy, [b.variance, b.priority2]);
    CompareHead(a.variance, [a.priority2], b.variance, [b.priority2]);
    CompareHead(a.priority2, [], b.priority2, []);
    hide Compare;
    assert Attributes(a) == [a.priority1] + [a.clockClass, a.clockAccuracy, a.variance, a.priority2];
    assert [a.clockClass, a.clockAccuracy, a.variance, a.priority2]
        == [a.clockClass] + [a.clockAccuracy, a.variance, a.priority2];
    assert [a.clockAccuracy, a.variance, a.priority2] == [a.clockAccuracy] + [a.variance, a.priority2];
    assert [a.variance, a.priority2] == [a.variance] + [a.priority2];
    assert Attributes(b) == [b.priority1] + [b.clockClass, b.clockAccuracy, b.variance, b.priority2];
    assert [b.clockClass, b.clockAccuracy, b.variance, b.priority2]
        == [b.clockClass] + [b.clockAccuracy, b.variance, b.priority2];
    assert [b.clockAccuracy, b.variance, b.priority2] == [b.clockAccuracy] + [b.variance, b.priority2];
    assert [b.variance, b.priority2] == [b.variance] + [b.priority2];
    assert [a.priority2] == [a.priority2] + [] && [b.priority2] == [b.priority2] + [];
  }

  lemma CompareHead(x: int, s: seq<int>, y: int, t: seq<int>)
    ensures Compare([x] + s, [y] + t) == if x < y then -1 else if x > y then 1 else Compare(s, t)
    ensures Compare([], []) == 0
  {
    assert ([x] + s)[1..] == s && ([y] + t)[1..] == t;
  }

  lemma PathSteps(a: Dataset, b: Dataset)
    ensures Compare(Path(a), Path(b)) ==
      if a.stepsRemoved != b.stepsRemoved then Sign(a.stepsRemoved - b.stepsRemoved)
      else if Compare(a.sender.clock, b.sender.clock) != 0 then Compare(a.sender.clock, b.sender.clock)
      else if a.sender.port != b.sender.port then Sign(a.sender.port - b.sender.port)
      else Sign(a.receiver.port - b.receiver.port)
  {
    var x, y := [a.sender.port, a.receiver.port], [b.sender.port, b.receiver.port];
    CompareParts([a.stepsRemoved] + a.sender.clock, x, [b.stepsRemoved] + b.sender.clock, y);
    CompareParts([a.stepsRemoved], a.sender.clock, [b.stepsRemoved], b.sender.clock);
    CompareHead(a.stepsRemoved, [], b.stepsRemoved, []);
    CompareHead(a.sender.port, [a.receiver.port], b.sender.port, [b.receiver.port]);
    CompareHead(a.receiver.port, [], b.receiver.port, []);
    hide Compare;
    assert [a.stepsRemoved] + [] == [a.stepsRemoved] && [b.stepsRemoved] + [] == [b.stepsRemoved];
    assert x == [a.sender.port] + [a.receiver.port] && y == [b.sender.port] + [b.receiver.port];
    assert [a.receiver.port] == [a.receiver.port] + [] && [b.receiver.port] == [b.receiver.port] + [];
  }

  /** DSCmp weighs the attributes only between different grandmasters, the path only between
      announcements of the same one. */
  lemma DSCmpParts(a: Dataset, b: Dataset)
    ensures Sign(DSCmp(a, b)) ==
      if a.identity == b.identity then Compare(Path(a), Path(b))
      else if Attributes(a) != Attributes(b) then Compare(Attributes(a), Attributes(b))
      else Compare(a.identity, b.identity)
  {
    CompareEqual(a.identity, b.identity);
    CompareEqual(Attributes(a), Attributes(b));
    AttributesSteps(a, b);
    PathSteps(a, b);
    hide Compare, Path;
  }

  /** Announcements of one grandmaster agree on its attributes, or at least rank it by
      attributes as they do by path. */
  predicate Agree(a: Dataset, b: Dataset) {
    || a.identity != b.identity
    || Attributes(a) == Attributes(b)
    || Compare(Attributes(a), Attributes(b)) == Compare(Path(a), Path(b))
  }

  /** The comparison is the lexicographic one exactly on pairs that agree. */
  lemma LexicographicIffAgree(a: Dataset, b: Dataset)
    ensures Sign(DSCmp(a, b)) == Compare(Key(a), Key(b)) <==> Agree(a, b)
  {
    DSCmpParts(a, b);
    KeyCompare(a, b);
    CompareEqual(Attributes(a), Attributes(b));
    hide Compare, DSCmp, Key, Path, Attributes;
  }

  /** a is no worse than b and b no worse than c, and yet c is better than a. */
  predicate Cyclic(a: Dataset, b: Dataset, c: Dataset) {
    DSCmp(a, b) <= 0 && DSCmp(b, c) <= 0 && DSCmp(c, a) < 0
  }

  lemma NoCycle(a: Dataset, b: Dataset, c: Dataset)
    requires Agree(a, b) && Agree(b, c) && Agree(c, a)
    ensures !Cyclic(a, b, c)
  {
    LexicographicIffAgree(a, b);
    LexicographicIffAgree(b, c);
    LexicographicIffAgree(c, a);
    CompareMirror(Key(c), Key(a));
    if Compare(Key(a), Key(b)) <= 0 && Compare(Key(b), Key(c)) <= 0 {
      CompareTransitive(Key(a), Key(b), Key(c));
    }
    hide Compare, DSCmp, Key, Agree;
  }

  const LAST_IDENTITY: ClockIdentity := [255, 255, 255, 255, 255, 255, 255, 255]
  const FIRST_IDENTITY: ClockIdentity := [0, 0, 0, 0, 0, 0, 0, 0]

  /** Another grandmaster, tied in attributes with the better of the two announcements and
      losing the tie, or, when no identity can lose it, tied with the worse and winning. */
  function Witness(better: Dataset, worse: Dataset): Dataset {
    if better.identity != LAST_IDENTITY then better.(identity := LAST_IDENTITY)
    else worse.(identity := FIRST_IDENTITY)
  }

  lemma {:induction false} IdentityBounds(b: bytes, last: seq<int>, first: seq<int>)
    requires |last| == |first| == |b|
    requires forall i | 0 <= i < |b| :: last[i] == 255 && first[i] == 0
    ensures Compare(b, last) <= 0 && Compare(first, b) <= 0
  {
    if b != [] { IdentityBounds(b[1..], last[1..], first[1..]); }
  }

  lemma WitnessBetween(better: Dataset, worse: Dataset)
    requires better.identity == worse.identity
    requires Compare(Attributes(better), Attributes(worse)) < 0
    ensures var c := Witness(better, worse);
      DSCmp(better, c) < 0 && DSCmp(c, worse) < 0 && c.identity != better.identity
  {
    var c := Witness(better, worse);
    IdentityBounds(better.identity, LAST_IDENTITY, FIRST_IDENTITY);
    CompareEqual(better.identity, c.identity);
    CompareEqual(c.identity, worse.identity);
    CompareEqual(Attributes(better), Attributes(worse));
    assert FIRST_IDENTITY[0] != LAST_IDENTITY[0];
    DSCmpParts(better, c);
    DSCmpParts(c, worse);
    hide Compare, DSCmp;
  }

  /** Two announcements are part of no cycle with any third that agrees with both, if and
      only if they agree: otherwise DSCmp is not transitive. */
  lemma TransitiveIffAgree(a: Dataset, b: Dataset)
    ensures Agree(a, b) <==>
      forall c | Agree(a, c) && Agree(c, a) && Agree(b, c) && Agree(c, b) ::
        !Cyclic(a, b, c) && !Cyclic(b, a, c)
  {
    AgreeMirror(a, b);
    if Agree(a, b) {
      forall c | Agree(a, c) && Agree(c, a) && Agree(b, c) && Agree(c, b)
        ensures !Cyclic(a, b, c) && !Cyclic(b, a, c)
      {
        NoCycle(a, b, c);
        NoCycle(b, a, c);
      }
    } else {
      CompareMirror(Attributes(a), Attributes(b));
      CompareMirror(Path(a), Path(b));
      CompareEqual(Attributes(a), Attributes(b));
      DSCmpParts(a, b);
      DSCmpParts(b, a);
      hide Compare, DSCmp, Witness;
      if Compare(Attributes(a), Attributes(b)) < 0 {
        WitnessBetween(a, b);
        assert Cyclic(b, a, Witness(a, b));
      } else {
        WitnessBetween(b, a);
        assert Cyclic(a, b, Witness(b, a));
      }
    }
  }

  /** Two announcements of one grandmaster, the one with the shorter path under the worse
      priority, and a grandmaster of priority in between: each is better than the next. */
  lemma CycleExample(self: PortIdentity)
    ensures var near := Dataset(3, FIRST_IDENTITY, 6, 33, 0, 128, 0, self, self);
      var far := near.(priority1 := 1, stepsRemoved := 5);
      var other := near.(identity := LAST_IDENTITY, priority1 := 2);
      DSCmp(near, far) < 0 && DSCmp(far, other) < 0 && DSCmp(other, near) < 0
  {
    CompareEqual(FIRST_IDENTITY, LAST_IDENTITY);
    CompareEqual(FIRST_IDENTITY, FIRST_IDENTITY);
    CompareMirror(FIRST_IDENTITY, LAST_IDENTITY);
    assert FIRST_IDENTITY[0] != LAST_IDENTITY[0];
    hide Compare;
  }

  lemma AgreeMirror(a: Dataset, b: Dataset)
    ensures Agree(a, b) <==> Agree(b, a)
  {
    CompareMirror(Attributes(a), Attributes(b));
    CompareMirror(Path(a), Path(b));
    hide Compare, Attributes, Path;
  }

  // ------------------------------------------------------------- the choice

  /** Position of the running best after looking at all of a list in its order. */
  function SelectIndex(ds: seq<Dataset>): (k: nat)
    requires ds != []
    ensures k < |ds|
  {
    if |ds| == 1 then 0
    else
      var k := SelectIndex(ds[..|ds| - 1]);
      if DSCmp(ds[|ds| - 1], ds[k]) < 0 then |ds| - 1 else k
  }

  predicate AllAgree(ds: seq<Dataset>) {
    forall i, j | 0 <= i < |ds| && 0 <= j < |ds| :: Agree(ds[i], ds[j])
  }

  /** Different senders, one receiver. */
  predicate DistinctSenders(ds: seq<Dataset>) {
    forall i, j | 0 <= i < j < |ds| ::
      ds[i].sender != ds[j].sender && ds[i].receiver == ds[j].receiver
  }

  /** No data set of the list is better than the chosen one. */
  lemma {:induction false} SelectedIsBest(ds: seq<Dataset>)
    requires ds != [] && AllAgree(ds)
    ensures SmallestAt(ds, SelectIndex(ds))
    ensures forall i | 0 <= i < |ds| :: !(DSCmp(ds[i], ds[SelectIndex(ds)]) < 0)
  {
    hide Compare, DSCmp, Key, Agree, SmallestAt;
    var n := |ds| - 1;
    if n == 0 {
      OnlyIsSmallest(ds);
    } else {
      SelectedIsBest(ds[..n]);
      LastOrBestIsSmallest(ds, SelectIndex(ds[..n]));
    }
    SmallestIsBest(ds, SelectIndex(ds));
  }

  predicate SmallestAt(ds: seq<Dataset>, k: nat) {
    k < |ds| && forall i | 0 <= i < |ds| :: Compare(Key(ds[k]), Key(ds[i])) <= 0
  }

  lemma OnlyIsSmallest(ds: seq<Dataset>)
    requires |ds| == 1
    ensures SmallestAt(ds, 0)
  {
    CompareEqual(Key(ds[0]), Key(ds[0]));
    hide Compare, Key;
  }

  lemma LastOrBestIsSmallest(ds: seq<Dataset>, b: nat)
    requires 2 <= |ds| && AllAgree(ds) && SmallestAt(ds[..|ds| - 1], b)
    ensures SmallestAt(ds, if DSCmp(ds[|ds| - 1], ds[b]) < 0 then |ds| - 1 else b)
  {
    hide Compare, DSCmp, Key, Agree;
    var n := |ds| - 1;
    LexicographicIffAgree(ds[n], ds[b]);
    CompareMirror(Key(ds[n]), Key(ds[b]));
    CompareEqual(Key(ds[n]), Key(ds[n]));
    forall i | 0 <= i < n
      ensures Compare(Key(ds[b]), Key(ds[i])) <= 0
      ensures DSCmp(ds[n], ds[b]) < 0 ==> Compare(Key(ds[n]), Key(ds[i])) <= 0
    {
      assert ds[..n][i] == ds[i];
      if Compare(Key(ds[n]), Key(ds[b])) <= 0 { CompareTransitive(Key(ds[n]), Key(ds[b]), Key(ds[i])); }
    }
  }

  lemma SmallestIsBest(ds: seq<Dataset>, k: nat)
    requires AllAgree(ds) && SmallestAt(ds, k)
    ensures forall i | 0 <= i < |ds| :: !(DSCmp(ds[i], ds[k]) < 0)
  {
    hide Compare, DSCmp, Key, Agree;
    forall i | 0 <= i < |ds| ensures !(DSCmp(ds[i], ds[k]) < 0) {
      LexicographicIffAgree(ds[i], ds[k]);
      CompareMirror(Key(ds[i]), Key(ds[k]));
    }
  }

  lemma KeysDiffer(a: Dataset, b: Dataset)
    requires a.sender != b.sender
    ensures Key(a) != Key(b)
  {
    KeyCompare(a, b);
    PathSteps(a, b);
    CompareEqual(a.sender.clock, b.sender.clock);
    CompareEqual(Key(a), Key(b));
    CompareEqual(Attributes(a), Attributes(b));
    CompareEqual(a.identity, b.identity);
    hide Compare, Key, Path, Attributes;
  }

  /** The order in which a list of foreign masters is visited, such as a Go map's, does not
      matter: every permutation yields the same choice, which is better than all others. */
  lemma OrderIndependent(ds: seq<Dataset>, es: seq<Dataset>)
    requires ds != [] && AllAgree(ds) && DistinctSenders(ds) && multiset(ds) == multiset(es)
    ensures es != [] && es[SelectIndex(es)] == ds[SelectIndex(ds)]
    ensures forall i | 0 <= i < |ds| && i != SelectIndex(ds) :: DSCmp(ds[SelectIndex(ds)], ds[i]) < 0
  {
    assert |multiset(ds)| == |ds| && |multiset(es)| == |es|;
    hide Compare, DSCmp, Key, Agree, SelectIndex;
    Permuted(ds, es);
    SelectedIsBest(ds);
    SelectedIsBest(es);
    var k, l := SelectIndex(ds), SelectIndex(es);
    var i := IndexOf(ds, es[l]);
    var j := IndexOf(es, ds[k]);
    assert Compare(Key(es[l]), Key(es[j])) <= 0;
    if i != k {
      assert ds[i].sender != ds[k].sender;
      KeysDiffer(ds[i], ds[k]);
      CompareMirror(Key(ds[i]), Key(ds[k]));
      CompareEqual(Key(ds[i]), Key(ds[k]));
      assert false;
    }
    forall m | 0 <= m < |ds| && m != k ensures DSCmp(ds[k], ds[m]) < 0 {
      assert ds[m].sender != ds[k].sender;
      KeysDiffer(ds[k], ds[m]);
      CompareEqual(Key(ds[k]), Key(ds[m]));
      LexicographicIffAgree(ds[k], ds[m]);
    }
  }

  lemma Permuted(ds: seq<Dataset>, es: seq<Dataset>)
    requires AllAgree(ds) && multiset(ds) == multiset(es)
    ensures AllAgree(es)
    ensures forall d :: d in ds <==> d in es
  {
    hide Agree;
    forall d ensures d in ds <==> d in es {
      assert d in ds <==> d in multiset(ds);
      assert d in es <==> d in multiset(es);
    }
    forall i, j | 0 <= i < |es| && 0 <= j < |es| ensures Agree(es[i], es[j]) {
      assert es[i] in ds && es[j] in ds;
    }
  }

  lemma IndexOf(ds: seq<Dataset>, d: Dataset) returns (i: nat)
    requires d in ds
    ensures i < |ds| && ds[i] == d
  {
    i :| 0 <= i < |ds| && ds[i] == d;
  }
}
