/** Reassembly over whole runs: fragments arrive in any order, repeated, mixed with
    other sequence numbers, and stale buffers are dropped in between. */
module Reassembly {
  import opened Basics
  import opened Payload
  import opened Fragmentation

  datatype Event = Arrival(df: DataFrag, now: int) | Collection(expireBefore: int)

  /** The samples held by the writer, by sequence number. */
  type Samples = map<int, DDSData>

  predicate Fragmentable(d: DDSData, fs: nat) {
    !d.DisposeByKeyHash? && 0 < fs <= |SampleBytes(d)|
  }

  function Total(d: DDSData, fs: nat): nat
    requires Fragmentable(d, fs)
  {
    TotalFragments(|SampleBytes(d)|, fs)
  }

  /** The submessage holds a row of whole fragments of the sample. */
  predicate Carries(df: DataFrag, d: DDSData, fs: nat)
    requires Fragmentable(d, fs)
  {
    && df.dataSize == |SampleBytes(d)| && df.fragmentSize == fs && df.isKey == d.DisposeByKey?
    && df.startingNum >= 1 && df.fragmentsInSubmessage >= 1
    && First(df) + df.fragmentsInSubmessage <= Total(d, fs)
    && 0 <= First(df) * fs <= Min((First(df) + df.fragmentsInSubmessage) * fs, |SampleBytes(d)|)
    && df.payload == SampleBytes(d)[First(df) * fs..Min((First(df) + df.fragmentsInSubmessage) * fs, |SampleBytes(d)|)]
  }

  function First(df: DataFrag): int { df.startingNum - 1 }

  predicate In(f: int, df: DataFrag) { First(df) <= f < First(df) + df.fragmentsInSubmessage }

  /** A disposal always comes back as a disposal; every other sample as it was. */
  function AsReceived(d: DDSData): DDSData {
    if d.DisposeByKey? then d.(changeKind := NotAliveDisposed) else d
  }

  /** Every fragment the sender cuts carries its part of the sample. */
  lemma CutCarries(d: DDSData, sn: int, n: nat, fs: nat)
    requires Fragmentable(d, fs) && 1 <= n <= Total(d, fs)
    ensures var c := DataFragMsg(d, sn, n, fs, |SampleBytes(d)|);
            c.Some? && c.value.writerSn == sn && c.value.startingNum == n
            && c.value.fragmentsInSubmessage == 1 && Carries(c.value, d, fs)
  {
    FragmentStartsInside(n - 1, |SampleBytes(d)|, fs);
    MulMonotone(0, n - 1, fs);
    MulMonotone(n - 1, n, fs);
  }

  // ----- what has arrived, said without buffers ----------------------------

  /** Fragments that arrived since the last completion or drop, and when last. */
  datatype Progress = Progress(got: set<nat>, last: int)

  ghost predicate Covers(got: set<nat>, total: nat) {
    forall f: nat :: f < total ==> f in got
  }

  ghost function Frags(df: DataFrag): set<nat> {
    set f: nat | f < First(df) + df.fragmentsInSubmessage && In(f, df)
  }

  ghost function GotOf(p: Option<Progress>): set<nat> {
    if p.Some? then p.value.got else {}
  }

  ghost predicate ArrivalOf(ev: Event, sn: int) { ev.Arrival? && ev.df.writerSn == sn }

  ghost function Since(h: seq<Event>, sn: int, total: nat): Option<Progress> {
    if h == [] then None
    else
      var ev := h[|h| - 1];
      var before := Since(h[..|h| - 1], sn, total);
      if ArrivalOf(ev, sn) then
        var got := GotOf(before) + Frags(ev.df);
        if Covers(got, total) then None else Some(Progress(got, ev.now))
      else if ev.Collection? && before.Some? && before.value.last < ev.expireBefore then None
      else before
  }

  /** The last event completes the sample. */
  ghost predicate Completes(h: seq<Event>, sn: int, total: nat) {
    && h != [] && ArrivalOf(h[|h| - 1], sn)
    && Covers(GotOf(Since(h[..|h| - 1], sn, total)) + Frags(h[|h| - 1].df), total)
  }

  // ----- runs ---------------------------------------------------------------

  ghost predicate WellFormed(samples: Samples, fs: nat) {
    forall sn :: sn in samples ==> Fragmentable(samples[sn], fs)
  }

  ghost predicate Honest(ev: Event, samples: Samples, fs: nat)
    requires WellFormed(samples, fs)
  {
    ev.Arrival? ==> ev.df.writerSn in samples && Carries(ev.df, samples[ev.df.writerSn], fs)
  }

  ghost predicate HonestRun(h: seq<Event>, samples: Samples, fs: nat) {
    WellFormed(samples, fs) && forall i :: 0 <= i < |h| ==> Honest(h[i], samples, fs)
  }

  /** The buffer has received exactly the fragments in p, with the right octets. */
  ghost predicate Matches(b: Buffer, p: Progress, d: DDSData, fs: nat)
    requires Fragmentable(d, fs)
  {
    && |b.bytes| == |SampleBytes(d)| && |b.received| == Total(d, fs) && b.modified == p.last
    && (forall f: nat :: f < Total(d, fs) ==> (b.received[f] <==> f in p.got))
    && (forall f: nat :: f in p.got ==> Agrees(b.bytes, SampleBytes(d), f * fs, (f + 1) * fs))
  }

  ghost predicate Agrees(x: seq<byte>, y: seq<byte>, lo: int, hi: int)
    requires |x| == |y|
  {
    forall j :: 0 <= j < |x| && lo <= j < hi ==> x[j] == y[j]
  }

  ghost predicate Tracks(a: Assembler, h: seq<Event>, sn: int, d: DDSData, fs: nat)
    requires Fragmentable(d, fs)
  {
    var p := Since(h, sn, Total(d, fs));
    (sn in a.buffers <==> p.Some?) && (p.Some? ==> Matches(a.buffers[sn], p.value, d, fs))
  }

  ghost predicate RunInv(a: Assembler, h: seq<Event>, samples: Samples, fs: nat)
    requires WellFormed(samples, fs)
  {
    && a.fragmentSize == fs
    && (forall sn :: sn in a.buffers ==> sn in samples)
    && (forall sn :: sn in samples ==> Tracks(a, h, sn, samples[sn], fs))
  }

  lemma FreshMatches(df: DataFrag, now: int, d: DDSData, fs: nat)
    requires Fragmentable(d, fs) && Carries(df, d, fs)
    ensures Matches(FreshBuffer(df, now), Progress({}, now), d, fs)
  {
  }

  lemma CarriedFits(b: Buffer, df: DataFrag, d: DDSData, fs: nat)
    requires Fragmentable(d, fs) && Carries(df, d, fs)
    requires |b.bytes| == |SampleBytes(d)| && |b.received| == Total(d, fs)
    ensures Fits(|b.bytes|, |b.received|, df, fs)
    ensures ToBeforeByte(|b.bytes|, df, fs) == Min((First(df) + df.fragmentsInSubmessage) * fs, |b.bytes|)
  {
    hide SampleBytes, TotalFragments;
    var from, k := First(df) * fs, df.fragmentsInSubmessage * fs;
    assert (First(df) + df.fragmentsInSubmessage) * fs == from + k;
    assert |df.payload| == Min(from + k, |b.bytes|) - from;
  }

  /** Outside its own octets an insertion changes nothing; inside, it is right. */
  lemma InsertedBytes(b: Buffer, df: DataFrag, now: int, d: DDSData, fs: nat)
    requires Fragmentable(d, fs) && Carries(df, d, fs)
    requires |b.bytes| == |SampleBytes(d)| && |b.received| == Total(d, fs)
    requires Fits(|b.bytes|, |b.received|, df, fs)
    ensures var r := Inserted(b, df, fs, now).bytes;
            var from, to := First(df) * fs, (First(df) + df.fragmentsInSubmessage) * fs;
            && Agrees(r, SampleBytes(d), from, to)
            && Agrees(r, b.bytes, 0, from) && Agrees(r, b.bytes, to, |b.bytes|)
  {
    CarriedFits(b, df, d, fs);
  }

  lemma AgreesAcross(r: seq<byte>, b: seq<byte>, y: seq<byte>, from: int, to: int, lo: int, hi: int)
    requires |r| == |b| == |y| && 0 <= lo
    requires Agrees(r, y, from, to) && Agrees(r, b, 0, from) && Agrees(r, b, to, |b|)
    requires (from <= lo && hi <= to) || ((hi <= from || to <= lo) && Agrees(b, y, lo, hi))
    ensures Agrees(r, y, lo, hi)
  {
  }

  lemma InsertedOctets(b: Buffer, df: DataFrag, now: int, d: DDSData, fs: nat, f: nat)
    requires Fragmentable(d, fs) && Carries(df, d, fs)
    requires |b.bytes| == |SampleBytes(d)| && |b.received| == Total(d, fs)
    requires Fits(|b.bytes|, |b.received|, df, fs)
    requires In(f, df) || Agrees(b.bytes, SampleBytes(d), f * fs, (f + 1) * fs)
    ensures Agrees(Inserted(b, df, fs, now).bytes, SampleBytes(d), f * fs, (f + 1) * fs)
  {
    InsertedBytes(b, df, now, d, fs);
    MulMonotone(0, f, fs);
    var end := First(df) + df.fragmentsInSubmessage;
    if In(f, df) {
      MulMonotone(First(df), f, fs);
      MulMonotone(f + 1, end, fs);
    } else if f < First(df) {
      MulMonotone(f + 1, First(df), fs);
    } else {
      MulMonotone(end, f, fs);
    }
    AgreesAcross(Inserted(b, df, fs, now).bytes, b.bytes, SampleBytes(d),
                 First(df) * fs, end * fs, f * fs, (f + 1) * fs);
  }

  lemma InsertedBits(b: Buffer, df: DataFrag, fs: nat, now: int, f: nat)
    requires Fits(|b.bytes|, |b.received|, df, fs) && f < |b.received|
    ensures Inserted(b, df, fs, now).received[f] <==> b.received[f] || f in Frags(df)
  {
  }

  lemma InsertMatches(b: Buffer, p: Progress, df: DataFrag, now: int, d: DDSData, fs: nat)
    requires Fragmentable(d, fs) && Carries(df, d, fs) && Matches(b, p, d, fs)
    ensures Fits(|b.bytes|, |b.received|, df, fs)
    ensures Matches(Inserted(b, df, fs, now), Progress(p.got + Frags(df), now), d, fs)
  {
    hide Carries, Agrees, SampleBytes, TotalFragments;
    CarriedFits(b, df, d, fs);
    var r := Inserted(b, df, fs, now);
    var got := p.got + Frags(df);
    forall f: nat | f < Total(d, fs) ensures r.received[f] <==> f in got {
      InsertedBits(b, df, fs, now, f);
    }
    forall f: nat | f in got ensures Agrees(r.bytes, SampleBytes(d), f * fs, (f + 1) * fs) {
      InsertedOctets(b, df, now, d, fs, f);
    }
  }

  /** A full buffer is the sample, octet for octet. */
  lemma FullBufferDecodes(b: Buffer, p: Progress, d: DDSData, fs: nat)
    requires Fragmentable(d, fs) && Matches(b, p, d, fs)
    ensures AllSet(b.received) <==> Covers(p.got, Total(d, fs))
    ensures AllSet(b.received) ==> Decoded(b.bytes, d.DisposeByKey?) == Some(AsReceived(d))
  {
    assert AllSet(b.received) ==> Covers(p.got, Total(d, fs)) by {
      if AllSet(b.received) {
        forall f: nat | f < Total(d, fs) ensures f in p.got {
          assert b.received[f];
        }
      }
    }
    if AllSet(b.received) {
      forall j | 0 <= j < |b.bytes| ensures b.bytes[j] == SampleBytes(d)[j] {
        var f := OctetHasFragment(j, |b.bytes|, fs);
        assert f in p.got;
        assert Agrees(b.bytes, SampleBytes(d), f * fs, (f + 1) * fs);
      }
      assert b.bytes == SampleBytes(d);
      FromBytesInvertsSerialized(if d.Data? then d.serializedPayload else d.key);
    }
  }

  /** The arriving fragment's own sample is tracked, and delivered when complete. */
  lemma ArrivalTracks(a: Assembler, h: seq<Event>, df: DataFrag, now: int, d: DDSData, fs: nat)
    requires Fragmentable(d, fs) && Carries(df, d, fs)
    requires a.fragmentSize == fs && Tracks(a, h, df.writerSn, d, fs)
    ensures Accepts(a, df)
    ensures var h' := h + [Arrival(df, now)];
            && Tracks(Arrive(a, df, now).0, h', df.writerSn, d, fs)
            && Arrive(a, df, now).1 ==
               if Completes(h', df.writerSn, Total(d, fs)) then Some(AsReceived(d)) else None
  {
    var sn := df.writerSn;
    var h' := h + [Arrival(df, now)];
    assert h'[..|h|] == h && h'[|h|] == Arrival(df, now);
    var p := Since(h, sn, Total(d, fs));
    var b0 := if sn in a.buffers then a.buffers[sn] else FreshBuffer(df, now);
    var p0 := if p.Some? then p.value else Progress({}, now);
    FreshMatches(df, now, d, fs);
    InsertMatches(b0, p0, df, now, d, fs);
    FullBufferDecodes(Inserted(b0, df, fs, now), Progress(p0.got + Frags(df), now), d, fs);
  }

  /** Other samples are untouched by an arrival. */
  lemma OthersUntouched(a: Assembler, h: seq<Event>, df: DataFrag, now: int, sn: int, d: DDSData, fs: nat)
    requires Fragmentable(d, fs) && Accepts(a, df)
    requires sn != df.writerSn && Tracks(a, h, sn, d, fs)
    ensures var a' := Arrive(a, df, now).0;
            && Tracks(a', h + [Arrival(df, now)], sn, d, fs)
            && (sn in a'.buffers <==> sn in a.buffers)
            && (sn in a.buffers ==> a'.buffers[sn] == a.buffers[sn])
  {
    var h' := h + [Arrival(df, now)];
    assert h'[..|h|] == h && h'[|h|] == Arrival(df, now);
  }

  lemma CollectionTracks(a: Assembler, h: seq<Event>, t: int, sn: int, d: DDSData, fs: nat)
    requires Fragmentable(d, fs) && Tracks(a, h, sn, d, fs)
    ensures Tracks(Collect(a, t), h + [Collection(t)], sn, d, fs)
  {
    var h' := h + [Collection(t)];
    assert h'[..|h|] == h && h'[|h|] == Collection(t);
  }

  lemma StepKeepsRunInv(a: Assembler, h: seq<Event>, ev: Event, samples: Samples, fs: nat)
    requires WellFormed(samples, fs) && Honest(ev, samples, fs) && RunInv(a, h, samples, fs)
    ensures ev.Arrival? ==> Accepts(a, ev.df)
    ensures RunInv(if ev.Arrival? then Arrive(a, ev.df, ev.now).0 else Collect(a, ev.expireBefore),
                   h + [ev], samples, fs)
  {
    if ev.Arrival? {
      ArrivalTracks(a, h, ev.df, ev.now, samples[ev.df.writerSn], fs);
      forall sn | sn in samples && sn != ev.df.writerSn
        ensures Tracks(Arrive(a, ev.df, ev.now).0, h + [ev], sn, samples[sn], fs)
      {
        OthersUntouched(a, h, ev.df, ev.now, sn, samples[sn], fs);
      }
    } else {
      forall sn | sn in samples
        ensures Tracks(Collect(a, ev.expireBefore), h + [ev], sn, samples[sn], fs)
      {
        CollectionTracks(a, h, ev.expireBefore, sn, samples[sn], fs);
      }
    }
  }

  /** The assembler after a run; it never trips over a fragment. */
  ghost function Run(h: seq<Event>, samples: Samples, fs: nat): (a: Assembler)
    requires HonestRun(h, samples, fs)
    ensures RunInv(a, h, samples, fs)
  {
    if h == [] then Assembler(fs, map[])
    else
      var ev := h[|h| - 1];
      var a := Run(h[..|h| - 1], samples, fs);
      StepKeepsRunInv(a, h[..|h| - 1], ev, samples, fs);
      assert h == h[..|h| - 1] + [ev];
      if ev.Arrival? then Arrive(a, ev.df, ev.now).0 else Collect(a, ev.expireBefore)
  }

  /** What the last event of a run makes the assembler return. */
  ghost function Output(h: seq<Event>, samples: Samples, fs: nat): Option<DDSData>
    requires HonestRun(h, samples, fs) && h != []
  {
    var ev := h[|h| - 1];
    var a := Run(h[..|h| - 1], samples, fs);
    StepKeepsRunInv(a, h[..|h| - 1], ev, samples, fs);
    if ev.Arrival? then Arrive(a, ev.df, ev.now).1 else None
  }

  // ----- results over every run --------------------------------------------

  /** An arrival returns the original sample exactly when it completes it. */
  lemma DeliversExactlyOnCompletion(h: seq<Event>, samples: Samples, fs: nat)
    requires HonestRun(h, samples, fs) && h != [] && h[|h| - 1].Arrival?
    ensures var sn := h[|h| - 1].df.writerSn;
            Output(h, samples, fs) ==
              if Completes(h, sn, Total(samples[sn], fs)) then Some(AsReceived(samples[sn])) else None
  {
    var ev, past := h[|h| - 1], h[..|h| - 1];
    assert h == past + [ev];
    ArrivalTracks(Run(past, samples, fs), past, ev.df, ev.now, samples[ev.df.writerSn], fs);
  }

  /** A sample is partially received exactly while some, but not all, of its
      fragments have arrived since it was last completed or dropped. */
  lemma {:induction false} PartialMeansSomeButNotAll(h: seq<Event>, sn: int, samples: Samples, fs: nat)
    requires HonestRun(h, samples, fs) && sn in samples
    ensures var p := Since(h, sn, Total(samples[sn], fs));
            && (sn in Run(h, samples, fs).buffers <==> p.Some?)
            && (p.Some? ==> !Covers(p.value.got, Total(samples[sn], fs)) && exists f: nat :: f in p.value.got)
  {
    assert Tracks(Run(h, samples, fs), h, sn, samples[sn], fs);
    if h != [] {
      PartialMeansSomeButNotAll(h[..|h| - 1], sn, samples, fs);
      var ev := h[|h| - 1];
      if ArrivalOf(ev, sn) {
        assert Honest(ev, samples, fs);
        assert (First(ev.df) as nat) in Frags(ev.df);
      }
    }
  }

  ghost function Arrivals(h: seq<Event>, sn: int, f: nat): nat {
    if h == [] then 0
    else Arrivals(h[..|h| - 1], sn, f)
         + if ArrivalOf(h[|h| - 1], sn) && In(f, h[|h| - 1].df) then 1 else 0
  }

  ghost function Deliveries(h: seq<Event>, sn: int, total: nat): nat {
    if h == [] then 0
    else Deliveries(h[..|h| - 1], sn, total) + if Completes(h, sn, total) then 1 else 0
  }

  /** A sample is delivered at most as often as each single fragment arrived. */
  lemma {:induction false} DeliveriesBoundedByArrivals(h: seq<Event>, sn: int, total: nat, f: nat)
    requires f < total
    ensures Deliveries(h, sn, total) + (if f in GotOf(Since(h, sn, total)) then 1 else 0) <= Arrivals(h, sn, f)
  {
    if h != [] {
      DeliveriesBoundedByArrivals(h[..|h| - 1], sn, total, f);
    }
  }

  /** How often the assembler returned sample sn in a run. */
  ghost function Returns(h: seq<Event>, sn: int, samples: Samples, fs: nat): nat
    requires HonestRun(h, samples, fs)
    decreases |h|
  {
    if h == [] then 0
    else Returns(h[..|h| - 1], sn, samples, fs)
         + if ArrivalOf(h[|h| - 1], sn) && Output(h, samples, fs).Some? then 1 else 0
  }

  lemma {:induction false} ReturnsAreDeliveries(h: seq<Event>, sn: int, samples: Samples, fs: nat)
    requires HonestRun(h, samples, fs) && sn in samples
    ensures Returns(h, sn, samples, fs) == Deliveries(h, sn, Total(samples[sn], fs))
    decreases |h|
  {
    if h != [] {
      ReturnsAreDeliveries(h[..|h| - 1], sn, samples, fs);
      if h[|h| - 1].Arrival? { DeliversExactlyOnCompletion(h, samples, fs); }
    }
  }

  /** The assembler returns a sample at most as often as each single fragment arrived. */
  lemma ReturnsBoundedByArrivals(h: seq<Event>, sn: int, samples: Samples, fs: nat, f: nat)
    requires HonestRun(h, samples, fs) && sn in samples && f < Total(samples[sn], fs)
    ensures Returns(h, sn, samples, fs) <= Arrivals(h, sn, f)
  {
    ReturnsAreDeliveries(h, sn, samples, fs);
    DeliveriesBoundedByArrivals(h, sn, Total(samples[sn], fs), f);
  }

  // ----- any order, with repeats ---------------------------------------------

  /** All fragments of a sample that arrived in a run. */
  ghost function Ever(h: seq<Event>, sn: int): set<nat> {
    if h == [] then {}
    else Ever(h[..|h| - 1], sn) + if ArrivalOf(h[|h| - 1], sn) then Frags(h[|h| - 1].df) else {}
  }

  ghost predicate NoCollection(h: seq<Event>) {
    forall i :: 0 <= i < |h| ==> h[i].Arrival?
  }

  lemma {:induction false} SinceIsEver(h: seq<Event>, sn: int, total: nat)
    requires NoCollection(h) && !Covers(Ever(h, sn), total)
    ensures forall f: nat :: f in GotOf(Since(h, sn, total)) <==> f in Ever(h, sn)
  {
    if h != [] {
      var g: nat :| g < total && g !in Ever(h, sn);
      var past := h[..|h| - 1];
      assert g !in Ever(past, sn);
      SinceIsEver(past, sn, total);
      assert g !in GotOf(Since(past, sn, total)) + (if ArrivalOf(h[|h| - 1], sn) then Frags(h[|h| - 1].df) else {});
    }
  }

  /** The arrival after which, for the first time, no fragment is missing. */
  ghost predicate FirstFull(h: seq<Event>, k: nat, sn: int, total: nat) {
    && 1 <= k <= |h| && ArrivalOf(h[k - 1], sn)
    && Covers(Ever(h[..k], sn), total) && !Covers(Ever(h[..k - 1], sn), total)
  }

  lemma CoverIsNotEmpty(got: set<nat>, total: nat)
    requires total > 0 && Covers(got, total)
    ensures got != {}
  {
    var f: nat := 0;
    assert f in got;
  }

  lemma {:induction false} FirstFullExists(h: seq<Event>, sn: int, total: nat) returns (k: nat)
    requires total > 0 && Covers(Ever(h, sn), total)
    ensures FirstFull(h, k, sn, total)
  {
    CoverIsNotEmpty(Ever(h, sn), total);
    var past := h[..|h| - 1];
    if Covers(Ever(past, sn), total) {
      k := FirstFullExists(past, sn, total);
      assert past[..k] == h[..k] && past[..k - 1] == h[..k - 1];
    } else {
      k := |h|;
      assert h[..k] == h;
    }
  }

  lemma FragmentCountPositive(d: DDSData, fs: nat)
    requires Fragmentable(d, fs)
    ensures Total(d, fs) > 0
  {
    var f := OctetHasFragment(0, |SampleBytes(d)|, fs);
  }

  lemma {:induction false} EverGrows(h: seq<Event>, i: nat, sn: int, f: nat)
    requires i <= |h|
    ensures f in Ever(h[..i], sn) ==> f in Ever(h, sn)
    decreases |h| - i
  {
    if i < |h| {
      assert h[..i + 1][..i] == h[..i];
      EverGrows(h, i + 1, sn, f);
    } else {
      assert h[..i] == h;
    }
  }

  lemma FirstFullCompletes(h: seq<Event>, k: nat, sn: int, total: nat)
    requires NoCollection(h) && FirstFull(h, k, sn, total)
    ensures Completes(h[..k], sn, total)
  {
    var past := h[..k][..k - 1];
    assert past == h[..k - 1];
    SinceIsEver(past, sn, total);
    var got := GotOf(Since(past, sn, total)) + Frags(h[k - 1].df);
    forall f: nat | f < total ensures f in got {
      assert f in Ever(h[..k], sn);
    }
  }

  lemma NothingCompletesBefore(h: seq<Event>, k: nat, i: nat, sn: int, total: nat)
    requires NoCollection(h) && FirstFull(h, k, sn, total) && 1 <= i < k
    ensures !Completes(h[..i], sn, total)
  {
    var f: nat :| f < total && f !in Ever(h[..k - 1], sn);
    var past := h[..k - 1];
    assert past[..i] == h[..i] && past[..i - 1] == h[..i - 1] && h[..i][..i - 1] == h[..i - 1];
    EverGrows(past, i, sn, f);
    EverGrows(past, i - 1, sn, f);
    SinceIsEver(h[..i - 1], sn, total);
    if ArrivalOf(h[i - 1], sn) {
      assert f !in GotOf(Since(h[..i - 1], sn, total)) + Frags(h[i - 1].df);
    }
  }

  /** However the fragments are ordered, repeated and mixed with other samples: the
      first arrival after which none is missing returns the sample, and no arrival
      before it does. */
  lemma AllFragmentsDeliver(h: seq<Event>, sn: int, samples: Samples, fs: nat) returns (k: nat)
    requires HonestRun(h, samples, fs) && NoCollection(h) && sn in samples
    requires Covers(Ever(h, sn), Total(samples[sn], fs))
    ensures FirstFull(h, k, sn, Total(samples[sn], fs))
    ensures Output(h[..k], samples, fs) == Some(AsReceived(samples[sn]))
    ensures forall i :: 1 <= i < k && ArrivalOf(h[i - 1], sn) ==> Output(h[..i], samples, fs) == None
  {
    FragmentCountPositive(samples[sn], fs);
    k := FirstFullExists(h, sn, Total(samples[sn], fs));
    FirstFullCompletes(h, k, sn, Total(samples[sn], fs));
    DeliversExactlyOnCompletion(h[..k], samples, fs);
    forall i | 1 <= i < k && ArrivalOf(h[i - 1], sn) ensures Output(h[..i], samples, fs) == None {
      NothingCompletesBefore(h, k, i, sn, Total(samples[sn], fs));
      DeliversExactlyOnCompletion(h[..i], samples, fs);
    }
  }

  // ----- repair ---------------------------------------------------------------

  /** An insertion removes exactly its own fragments from the missing list, and
      shortens it whenever it brings something new. */
  lemma {:induction false} NewFragmentShrinks(b: Buffer, df: DataFrag, fs: nat, now: int, n: nat)
    requires Fits(|b.bytes|, |b.received|, df, fs) && n <= |b.received|
    ensures var before := MissingUpTo(b.received, n);
            var after := MissingUpTo(Inserted(b, df, fs, now).received, n);
            && (forall x :: x in after <==> x in before && !In(x - 1, df))
            && |after| <= |before|
            && ((exists x :: x in before && In(x - 1, df)) ==> |after| < |before|)
  {
    if n > 0 {
      NewFragmentShrinks(b, df, fs, now, n - 1);
    }
  }

  /** The numbers in `todo` are exactly those of the fragments not yet in p. */
  ghost predicate Requested(todo: set<nat>, p: Progress, total: nat) {
    forall n: nat :: n in todo <==> 1 <= n <= total && (n - 1) !in p.got
  }

  /** One fragment on its own. */
  ghost predicate Single(ev: Event, sn: int) {
    ArrivalOf(ev, sn) && ev.df.startingNum >= 1 && ev.df.fragmentsInSubmessage == 1
  }

  /** The events bring each fragment in `todo` exactly once, in some order. */
  ghost predicate Enumerates(more: seq<Event>, sn: int, todo: set<nat>) {
    if more == [] then forall n :: n !in todo
    else
      && Single(more[0], sn) && more[0].df.startingNum in todo
      && Enumerates(more[1..], sn, todo - {more[0].df.startingNum})
  }

  /** A requested fragment completes the sample only if it is the last one. */
  lemma FeedOne(h: seq<Event>, ev: Event, todo: set<nat>, sn: int, p: Progress, total: nat)
    requires Requested(todo, p, total) && Single(ev, sn) && ev.df.startingNum in todo
    requires Since(h, sn, total) == Some(p)
    ensures Completes(h + [ev], sn, total) <==> forall n :: n !in todo - {ev.df.startingNum}
    ensures !Completes(h + [ev], sn, total) ==>
      var q := Since(h + [ev], sn, total);
      q.Some? && Requested(todo - {ev.df.startingNum}, q.value, total)
  {
    var h' := h + [ev];
    assert h'[..|h|] == h && h'[|h|] == ev;
    var rest := todo - {ev.df.startingNum};
    var q := Progress(p.got + Frags(ev.df), ev.now);
    assert Requested(rest, q, total);
    if !Covers(q.got, total) {
      var f: nat :| f < total && f !in q.got;
      assert (f + 1) in rest;
    }
  }

  /** What each event of `more` returns after the run h. */
  ghost function Outputs(h: seq<Event>, more: seq<Event>, samples: Samples, fs: nat): seq<Option<DDSData>>
    requires HonestRun(h, samples, fs) && HonestRun(more, samples, fs)
    decreases |more|
  {
    if more == [] then []
    else [Output(h + [more[0]], samples, fs)] + Outputs(h + [more[0]], more[1..], samples, fs)
  }

  /** Silence until the last event, which returns the sample. */
  ghost predicate OnlyLast(out: seq<Option<DDSData>>, d: DDSData) {
    && out != [] && out[|out| - 1] == Some(d)
    && forall i :: 0 <= i < |out| - 1 ==> out[i] == None
  }

  lemma {:induction false} RepairOutputs(h: seq<Event>, more: seq<Event>, todo: set<nat>, sn: int, samples: Samples, fs: nat)
    requires HonestRun(h, samples, fs) && HonestRun(more, samples, fs) && sn in samples
    requires more != [] && Enumerates(more, sn, todo)
    requires var p := Since(h, sn, Total(samples[sn], fs));
             p.Some? && Requested(todo, p.value, Total(samples[sn], fs))
    ensures OnlyLast(Outputs(h, more, samples, fs), AsReceived(samples[sn]))
    decreases |more|
  {
    var total := Total(samples[sn], fs);
    var ev, rest := more[0], more[1..];
    FeedOne(h, ev, todo, sn, Since(h, sn, total).value, total);
    DeliversExactlyOnCompletion(h + [ev], samples, fs);
    if rest == [] {
      assert Outputs(h + [ev], rest, samples, fs) == [];
    } else {
      assert rest[0].df.startingNum in todo - {ev.df.startingNum};
      RepairOutputs(h + [ev], rest, todo - {ev.df.startingNum}, sn, samples, fs);
    }
  }

  /** Feeding exactly the missing fragments, in any order, completes the sample on
      the last of them and not before. */
  lemma RepairCompletes(h: seq<Event>, more: seq<Event>, todo: set<nat>, sn: int, samples: Samples, fs: nat)
    requires HonestRun(h, samples, fs) && HonestRun(more, samples, fs)
    requires sn in samples && sn in Run(h, samples, fs).buffers
    requires forall n :: n in todo <==> n in Missing(Run(h, samples, fs).buffers[sn].received)
    requires Enumerates(more, sn, todo)
    ensures OnlyLast(Outputs(h, more, samples, fs), AsReceived(samples[sn]))
  {
    var total := Total(samples[sn], fs);
    var a := Run(h, samples, fs);
    assert Tracks(a, h, sn, samples[sn], fs);
    var p := Since(h, sn, total).value;
    MissingIsRequested(a.buffers[sn], p, todo, samples[sn], fs);
    PartialMeansSomeButNotAll(h, sn, samples, fs);
    var f: nat :| f < total && f !in p.got;
    assert (f + 1) in todo;
    RepairOutputs(h, more, todo, sn, samples, fs);
  }

  lemma MissingIsRequested(b: Buffer, p: Progress, todo: set<nat>, d: DDSData, fs: nat)
    requires Fragmentable(d, fs) && Matches(b, p, d, fs)
    requires forall n :: n in todo <==> n in Missing(b.received)
    ensures Requested(todo, p, Total(d, fs))
  {
    forall n: nat ensures n in todo <==> 1 <= n <= Total(d, fs) && (n - 1) !in p.got {
      if 1 <= n <= Total(d, fs) { var f: nat := n - 1; assert b.received[f] <==> f in p.got; }
    }
  }
}
