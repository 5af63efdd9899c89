/** CPU shares from the kernel's running counters, in 64-bit arithmetic that wraps. */
module CpuAccounting {
  import opened Samples

  const W: nat := 0x1_0000_0000_0000_0000

  type U64 = n: int | 0 <= n < W

  function Wrap(n: int): U64 { n % W }

  /** user, nice, system, idle, iowait, irq, softirq, steal */
  datatype Counters = Counters(user: U64, nice: U64, system: U64, idle: U64, iowait: U64, irq: U64, softirq: U64,
                               steal: U64)

  /** The totals that are carried from one sample to the next. */
  datatype Times = Times(total: U64, idle: U64)

  const ZERO: Counters := Counters(0, 0, 0, 0, 0, 0, 0, 0)

  function Sum(v: Counters): nat
  {
    v.user + v.nice + v.system + v.idle + v.iowait + v.irq + v.softirq + v.steal
  }

  function TimesOf(v: Counters): Times { Times(Wrap(Sum(v)), Wrap(v.idle + v.iowait)) }

  /** A percentage of a total. */
  function Share(part: int, total: int): real
    requires total != 0
  {
    part as real * (100.0 / total as real)
  }

  /** The shares of one sample; iowait, irq and steal are as the names say, user includes
      nice and system includes softirq. */
  datatype Parts = Parts(user: real, system: real, iowait: real, irq: real, steal: real)

  function UsageOf(prev: Times, now: Times, first: bool): Reading
  {
    var dt, didle := Wrap(now.total - prev.total), Wrap(now.idle - prev.idle);
    if !first && now.total > prev.total && dt >= didle then Present(100.0 * (dt - didle) as real / dt as real)
    else Absent
  }

  datatype PartsReading = NoParts | SomeParts(parts: Parts)

  function PartsOf(prev: Times, p: Counters, v: Counters, first: bool): PartsReading
  {
    var dt := Wrap(TimesOf(v).total - prev.total);
    if first || dt == 0 then NoParts
    else SomeParts(Parts(
      Share(Wrap(v.user + v.nice - p.user - p.nice), dt), Share(Wrap(v.system + v.softirq - p.system - p.softirq), dt),
      Share(Wrap(v.iowait - p.iowait), dt), Share(Wrap(v.irq - p.irq), dt), Share(Wrap(v.steal - p.steal), dt)))
  }

  /** A counter's growth per second, absent if it fell or no time passed. */
  function RateOf(now: U64, prev: U64, seconds: real): Reading
  {
    if seconds <= 0.0 || now < prev then Absent else Present((now - prev) as real / seconds)
  }

  // ---------------------------------------------------------- one sample

  datatype StatLine =
    | Aggregate(v: Counters)
    | Core(core: nat, v: Counters)
    | ContextSwitches(n: U64)
    | Running(n: U64)
    | Other

  /** What is carried from sample to sample. */
  datatype Carried = Carried(total: Times, fields: Counters, cores: seq<Times>, switches: U64)

  datatype Report = Report(usage: Reading, parts: PartsReading, cores: Row, switches: Reading, running: Reading)

  function Start(cores: nat): Carried
  {
    Carried(Times(0, 0), ZERO, seq(cores, _ => Times(0, 0)), 0)
  }

  function Nothing(cores: nat): Report { Report(Absent, NoParts, seq(cores, _ => Absent), Absent, Absent) }

  function AfterLine(c: Carried, r: Report, line: StatLine, seconds: real, first: bool): (n: (Carried, Report))
    requires |r.cores| == |c.cores|
    ensures |n.0.cores| == |c.cores| && |n.1.cores| == |c.cores|
  {
    match line
    case Aggregate(v) =>
      var parts := PartsOf(c.total, c.fields, v, first);
      (c.(total := TimesOf(v), fields := v),
       r.(usage := UsageOf(c.total, TimesOf(v), first), parts := if parts.NoParts? then r.parts else parts))
    case Core(k, v) =>
      if k >= |c.cores| then (c, r)
      else (c.(cores := c.cores[k := TimesOf(v)]),
            r.(cores := r.cores[k := UsageOf(c.cores[k], TimesOf(v), first)]))
    case ContextSwitches(n) =>
      (c.(switches := n), if first then r else r.(switches := RateOf(n, c.switches, seconds)))
    case Running(n) => (c, r.(running := Present(n as real)))
    case Other => (c, r)
  }

  function AfterLines(c: Carried, lines: seq<StatLine>, seconds: real, first: bool): (n: (Carried, Report))
    ensures |n.0.cores| == |c.cores| && |n.1.cores| == |c.cores|
    decreases |lines|
  {
    if lines == [] then (c, Nothing(|c.cores|))
    else
      var before := AfterLines(c, lines[..|lines| - 1], seconds, first);
      AfterLine(before.0, before.1, lines[|lines| - 1], seconds, first)
  }

  class CpuSampler {
    var prevTotal: Times
    var prevFields: Counters
    const prevCores: array<Times>
    var prevSwitches: U64

    ghost function State(): Carried
      reads this, prevCores
    {
      Carried(prevTotal, prevFields, prevCores[..], prevSwitches)
    }

    constructor (cores: nat)
      ensures State() == Start(cores) && fresh(prevCores)
    {
      prevTotal, prevFields, prevSwitches := Times(0, 0), ZERO, 0;
      prevCores := new Times[cores](_ => Times(0, 0));
    }

    method SampleCpu(lines: seq<StatLine>, seconds: real, first: bool) returns (r: Report)
      modifies this, prevCores
      ensures (State(), r) == AfterLines(old(State()), lines, seconds, first)
    {
      hide UsageOf, PartsOf, TimesOf, RateOf;
      ghost var before := State();
      r := Nothing(prevCores.Length);
      var i := 0;
      while i < |lines|
        invariant i <= |lines| && |r.cores| == prevCores.Length
        invariant (State(), r) == AfterLines(before, lines[..i], seconds, first)
      {
        assert lines[..i + 1][..i] == lines[..i];
        match lines[i] {
          case ContextSwitches(n) =>
            if !first {
              r := r.(switches := RateOf(n, prevSwitches, seconds));
            }
            prevSwitches := n;
          case Running(n) =>
            r := r.(running := Present(n as real));
          case Other =>
          case Aggregate(v) =>
            var now := TimesOf(v);
            r := r.(usage := UsageOf(prevTotal, now, first));
            var parts := PartsOf(prevTotal, prevFields, v, first);
            if parts.SomeParts? {
              r := r.(parts := parts);
            }
            prevFields := v;
            prevTotal := now;
          case Core(core, v) =>
            if core < prevCores.Length {
              var now := TimesOf(v);
              r := r.(cores := r.cores[core := UsageOf(prevCores[core], now, first)]);
              prevCores[core] := now;
            }
        }
        i := i + 1;
      }
      assert lines[..i] == lines;
    }
  }

  // ------------------------------------------------------------- meaning

  predicate IsPercentage(r: Reading) { r.Present? ==> 0.0 <= r.value <= 100.0 }

  lemma {:induction false} QuotientBounds(part: int, total: int)
    requires 0 <= part <= total && 0 < total
    ensures 0.0 <= 100.0 * part as real / total as real <= 100.0
  {
    var p, t := part as real, total as real;
    assert 0.0 <= p <= t && 0.0 < t;
    assert 100.0 * p / t == 100.0 * (p / t);
    assert 0.0 <= p / t <= 1.0;
  }

  /** Whatever the counters do, a usage is absent or a percentage. */
  lemma {:induction false} UsageInRange(prev: Times, now: Times, first: bool)
    ensures IsPercentage(UsageOf(prev, now, first))
  {
    var dt, didle := Wrap(now.total - prev.total), Wrap(now.idle - prev.idle);
    if !first && now.total > prev.total && dt >= didle {
      QuotientBounds(dt - didle, dt);
    }
  }

  /** The totals carried along belong to the counters carried along. */
  ghost predicate Consistent(c: Carried) { c.total == TimesOf(c.fields) }

  /** Over every run of samples the carried state stays consistent, and every usage
      reported, overall or of one core, is absent or a percentage. */
  lemma {:induction false} SampleKeeps(c: Carried, lines: seq<StatLine>, seconds: real, first: bool)
    requires Consistent(c)
    ensures var (n, r) := AfterLines(c, lines, seconds, first);
            Consistent(n) && IsPercentage(r.usage) && forall k :: 0 <= k < |r.cores| ==> IsPercentage(r.cores[k])
    decreases |lines|
  {
    hide UsageOf, PartsOf, TimesOf, IsPercentage;
    NoReadingIsPercentage();
    if lines != [] {
      var before := AfterLines(c, lines[..|lines| - 1], seconds, first);
      SampleKeeps(c, lines[..|lines| - 1], seconds, first);
      var line := lines[|lines| - 1];
      if line.Aggregate? {
        UsageInRange(before.0.total, TimesOf(line.v), first);
      } else if line.Core? && line.core < |c.cores| {
        UsageInRange(before.0.cores[line.core], TimesOf(line.v), first);
      }
    }
  }

  lemma {:induction false} NoReadingIsPercentage()
    ensures IsPercentage(Absent)
  {
  }

  predicate NonDecreasing(p: Counters, v: Counters)
  {
    p.user <= v.user && p.nice <= v.nice && p.system <= v.system && p.idle <= v.idle && p.iowait <= v.iowait &&
    p.irq <= v.irq && p.softirq <= v.softirq && p.steal <= v.steal
  }

  lemma {:induction false} WrapSmall(n: int)
    requires 0 <= n < W
    ensures Wrap(n) == n
  {
  }

  lemma {:induction false} WrapDifference(a: int, b: int)
    requires 0 <= a - b < W
    ensures Wrap(Wrap(a) - Wrap(b)) == a - b
  {
  }

  lemma {:induction false} WrapCongruent(a: int, b: int)
    ensures Wrap(Wrap(a) - Wrap(b)) == Wrap(a - b)
  {
    var k := a / W - b / W;
    assert a - b == (Wrap(a) - Wrap(b)) + k * W;
  }

  lemma {:induction false} SharesAdd(a: int, b: int, total: int)
    requires total != 0
    ensures Share(a, total) + Share(b, total) == Share(a + b, total)
  {
  }

  lemma {:induction false} ShareOfAll(part: int, total: int)
    requires total > 0
    ensures Share(part, total) == 100.0 * part as real / total as real && Share(total, total) == 100.0
  {
  }

  function Busy(p: Counters, v: Counters): int
  {
    (v.user + v.nice - p.user - p.nice) + (v.system + v.softirq - p.system - p.softirq) + (v.irq - p.irq)
    + (v.steal - p.steal)
  }

  /** When no counter fell and less than 2^64 ticks passed in all, the parts and the idle
      share add up to 100, and a usage that is reported is exactly user, system, irq and
      steal together; it is reported unless the total wrapped. */
  lemma {:induction false} PartsAddUp(p: Counters, v: Counters)
    requires NonDecreasing(p, v) && 0 < Sum(v) - Sum(p) < W
    ensures var parts := PartsOf(TimesOf(p), p, v, false);
            var usage := UsageOf(TimesOf(p), TimesOf(v), false);
            var grown := Sum(v) - Sum(p);
            && parts.SomeParts?
            && (var q := parts.parts;
                var busy := q.user + q.system + q.irq + q.steal;
                && busy + q.iowait + Share(v.idle - p.idle, grown) == 100.0
                && (usage == Present(busy) || usage == Absent)
                && (usage.Present? <==> Wrap(Sum(v)) > Wrap(Sum(p))))
  {
    hide Wrap, Share, Sum, Busy;
    var grown := Sum(v) - Sum(p);
    WrapDifference(Sum(v), Sum(p));
    WrapDifferenceOfIdle(p, v);
    SmallGrowths(p, v);
    PartsSum(p, v, grown);
    ShareOfAll(Busy(p, v), grown);
  }

  lemma {:induction false} WrapDifferenceOfIdle(p: Counters, v: Counters)
    requires NonDecreasing(p, v) && Sum(v) - Sum(p) < W
    ensures Wrap(TimesOf(v).idle - TimesOf(p).idle) == v.idle + v.iowait - p.idle - p.iowait
    ensures Sum(v) - Sum(p) - (v.idle + v.iowait - p.idle - p.iowait) == Busy(p, v) >= 0
  {
    hide Wrap;
    WrapDifference(v.idle + v.iowait, p.idle + p.iowait);
  }

  lemma {:induction false} SmallGrowths(p: Counters, v: Counters)
    requires NonDecreasing(p, v) && Sum(v) - Sum(p) < W
    ensures Wrap(v.user + v.nice - p.user - p.nice) == v.user + v.nice - p.user - p.nice
    ensures Wrap(v.system + v.softirq - p.system - p.softirq) == v.system + v.softirq - p.system - p.softirq
    ensures Wrap(v.iowait - p.iowait) == v.iowait - p.iowait
    ensures Wrap(v.irq - p.irq) == v.irq - p.irq && Wrap(v.steal - p.steal) == v.steal - p.steal
  {
    WrapSmall(v.user + v.nice - p.user - p.nice);
    WrapSmall(v.system + v.softirq - p.system - p.softirq);
    WrapSmall(v.iowait - p.iowait);
    WrapSmall(v.irq - p.irq);
    WrapSmall(v.steal - p.steal);
    hide Wrap;
  }

  /** The shares of the parts are the share of their sum. */
  lemma {:induction false} PartsSum(p: Counters, v: Counters, grown: int)
    requires grown == Sum(v) - Sum(p) && grown > 0
    ensures var user, system := v.user + v.nice - p.user - p.nice, v.system + v.softirq - p.system - p.softirq;
            var busy := Share(user, grown) + Share(system, grown) + Share(v.irq - p.irq, grown)
                        + Share(v.steal - p.steal, grown);
            && busy == Share(Busy(p, v), grown)
            && busy + Share(v.iowait - p.iowait, grown) + Share(v.idle - p.idle, grown) == 100.0
  {
    hide Share;
    var user, system := v.user + v.nice - p.user - p.nice, v.system + v.softirq - p.system - p.softirq;
    SharesAdd(user, system, grown);
    SharesAdd(user + system, v.irq - p.irq, grown);
    SharesAdd(user + system + (v.irq - p.irq), v.steal - p.steal, grown);
    SharesAdd(Busy(p, v), v.iowait - p.iowait, grown);
    SharesAdd(Busy(p, v) + (v.iowait - p.iowait), v.idle - p.idle, grown);
    ShareOfAll(Busy(p, v), grown);
  }

  predicate InRange(share: real) { 0.0 <= share <= 100.0 }

  /** How far two counters and one grew, as the parts take them: wrapped at 64 bits. */
  function Grown2(a: U64, b: U64, p: U64, q: U64): U64 { Wrap(a + b - p - q) }

  function Grown(a: U64, p: U64): U64 { Wrap(a - p) }

  /** What the total counter seems to have grown, wrapped likewise. */
  function TotalGrown(p: Counters, v: Counters): U64 { Wrap(Sum(v) - Sum(p)) }

  /** For all counters, fallen or not: each share is in 0 to 100 if and only if the wrapped
      growth it is made of is at most the wrapped growth of the total. Unlike the usage,
      the shares are not guarded. */
  lemma {:induction false} SharesInRangeIff(p: Counters, v: Counters)
    requires TotalGrown(p, v) > 0
    ensures var parts := PartsOf(TimesOf(p), p, v, false);
            var total := TotalGrown(p, v);
            && parts.SomeParts?
            && (var q := parts.parts;
                && (InRange(q.user) <==> Grown2(v.user, v.nice, p.user, p.nice) <= total)
                && (InRange(q.system) <==> Grown2(v.system, v.softirq, p.system, p.softirq) <= total)
                && (InRange(q.iowait) <==> Grown(v.iowait, p.iowait) <= total)
                && (InRange(q.irq) <==> Grown(v.irq, p.irq) <= total)
                && (InRange(q.steal) <==> Grown(v.steal, p.steal) <= total))
  {
    var total := TotalGrown(p, v);
    hide Wrap, Share, Sum, InRange;
    WrapCongruent(Sum(v), Sum(p));
    ShareInRange(Grown2(v.user, v.nice, p.user, p.nice), total);
    ShareInRange(Grown2(v.system, v.softirq, p.system, p.softirq), total);
    ShareInRange(Grown(v.iowait, p.iowait), total);
    ShareInRange(Grown(v.irq, p.irq), total);
    ShareInRange(Grown(v.steal, p.steal), total);
  }

  lemma {:induction false} ShareInRange(part: nat, total: int)
    requires total > 0
    ensures InRange(Share(part, total)) <==> part <= total
  {
    ShareOver(part, total);
    ShareOfAll(part, total);
    if part <= total {
      QuotientBounds(part, total);
    }
  }

  /** An idle counter that falls by 40 while iowait grows by 50: the total grew by 10, and
      iowait is reported as 500 percent. */
  lemma {:induction false} FallenIdleReported()
    ensures var p, v := ZERO.(idle := 100), ZERO.(idle := 60, iowait := 50);
            var parts := PartsOf(TimesOf(p), p, v, false);
            parts.SomeParts? && parts.parts.iowait == 500.0
  {
    ShareOfAll(50, 10);
  }

  /** An iowait counter that falls by 1 while idle grows by 3 is reported over 100 as well. */
  lemma {:induction false} FallenIowaitReported()
    ensures var parts := PartsOf(TimesOf(ZERO.(iowait := 1)), ZERO.(iowait := 1), ZERO.(idle := 3), false);
            parts.SomeParts? && !InRange(parts.parts.iowait)
  {
    SharesInRangeIff(ZERO.(iowait := 1), ZERO.(idle := 3));
  }

  lemma {:induction false} ShareOver(part: int, total: int)
    requires part >= 0 && total > 0
    ensures Share(part, total) > 100.0 <==> part > total
  {
    ShareOfAll(part, total);
    var p, t := part as real, total as real;
    assert Share(part, total) * t == 100.0 * p;
    if part > total {
      assert p > t;
      assert Share(part, total) == 100.0 * (p / t) && p / t > 1.0;
    } else {
      QuotientBounds(part, total);
    }
  }

  // ------------------------------------------------------------------ runs

  datatype CpuSample = CpuSample(lines: seq<StatLine>, seconds: real)

  /** What is carried after a run of samples from the start of the process. */
  function AfterSamples(cores: nat, samples: seq<CpuSample>): Carried
    decreases |samples|
  {
    if samples == [] then Start(cores)
    else
      var n := |samples| - 1;
      AfterLines(AfterSamples(cores, samples[..n]), samples[n].lines, samples[n].seconds, n == 0).0
  }

  lemma {:induction false} RunsStayConsistent(cores: nat, samples: seq<CpuSample>)
    ensures Consistent(AfterSamples(cores, samples))
    decreases |samples|
  {
    if samples != [] {
      var n := |samples| - 1;
      RunsStayConsistent(cores, samples[..n]);
      SampleKeeps(AfterSamples(cores, samples[..n]), samples[n].lines, samples[n].seconds, n == 0);
    }
  }

  /** After any run, a sample in which no counter fell reports parts that add up to 100 with
      the idle share, and a usage of user, system, irq and steal together. */
  lemma {:induction false} NextSampleAddsUp(cores: nat, samples: seq<CpuSample>, v: Counters, seconds: real)
    requires samples != []
    requires var p := AfterSamples(cores, samples).fields; NonDecreasing(p, v) && 0 < Sum(v) - Sum(p) < W
    ensures var c := AfterSamples(cores, samples);
            var (next, r) := AfterLines(c, [Aggregate(v)], seconds, false);
            && next.fields == v && r.parts.SomeParts?
            && (var q := r.parts.parts;
                var busy := q.user + q.system + q.irq + q.steal;
                && busy + q.iowait + Share(v.idle - c.fields.idle, Sum(v) - Sum(c.fields)) == 100.0
                && (r.usage == Present(busy) || r.usage == Absent))
  {
    RunsStayConsistent(cores, samples);
    var c := AfterSamples(cores, samples);
    PartsAddUp(c.fields, v);
    hide PartsOf, UsageOf, TimesOf, Sum, Share, NonDecreasing, AfterSamples, AfterLines;
    LineDecides(c, [Aggregate(v)], seconds, false, 0);
  }

  // ---------------------------------------------------- what one line decides

  /** The two lines are about the same thing. */
  predicate SameKind(a: StatLine, b: StatLine)
  {
    (a.Aggregate? && b.Aggregate?) || (a.Core? && b.Core? && a.core == b.core) ||
    (a.ContextSwitches? && b.ContextSwitches?) || (a.Running? && b.Running?)
  }

  lemma {:induction false} OtherLine(
    c: Carried, r: Report, line: StatLine, seconds: real, first: bool, kind: StatLine)
    requires |r.cores| == |c.cores| && !SameKind(line, kind)
    ensures var (n, q) := AfterLine(c, r, line, seconds, first);
            && (kind.Aggregate? ==> n.total == c.total && n.fields == c.fields &&
                                    q.usage == r.usage && q.parts == r.parts)
            && (kind.Core? && kind.core < |c.cores| ==> n.cores[kind.core] == c.cores[kind.core] &&
                                                        q.cores[kind.core] == r.cores[kind.core])
            && (kind.ContextSwitches? ==> n.switches == c.switches && q.switches == r.switches)
            && (kind.Running? ==> q.running == r.running)
  {
    hide UsageOf, PartsOf, TimesOf, RateOf;
  }

  /** What no line is about is carried on and not reported. */
  lemma {:induction false} UntoldStays(c: Carried, lines: seq<StatLine>, seconds: real, first: bool, kind: StatLine)
    requires forall j :: 0 <= j < |lines| ==> !SameKind(lines[j], kind)
    ensures var (n, r) := AfterLines(c, lines, seconds, first);
            && (kind.Aggregate? ==> n.total == c.total && n.fields == c.fields &&
                                    r.usage == Absent && r.parts == NoParts)
            && (kind.Core? && kind.core < |c.cores| ==> n.cores[kind.core] == c.cores[kind.core] &&
                                                        r.cores[kind.core] == Absent)
            && (kind.ContextSwitches? ==> n.switches == c.switches && r.switches == Absent)
            && (kind.Running? ==> r.running == Absent)
    decreases |lines|
  {
    if lines != [] {
      var before := AfterLines(c, lines[..|lines| - 1], seconds, first);
      UntoldStays(c, lines[..|lines| - 1], seconds, first, kind);
      OtherLine(before.0, before.1, lines[|lines| - 1], seconds, first, kind);
      hide AfterLine, SameKind;
    }
  }

  /** Wherever a line stands in the sample, if no other is about the same thing it decides
      what is reported of it and what is carried on: for the whole and for a core the usage
      since the last sample, for the context switches their rate, unless the counter fell, no
      time passed or this is the first sample, and the running processes as they are. */
  lemma {:induction false} LineDecides(c: Carried, lines: seq<StatLine>, seconds: real, first: bool, i: nat)
    requires i < |lines| && forall j :: 0 <= j < |lines| && j != i ==> !SameKind(lines[j], lines[i])
    ensures var (n, r) := AfterLines(c, lines, seconds, first);
            match lines[i]
            case Aggregate(v) =>
              && n.total == TimesOf(v) && n.fields == v && r.usage == UsageOf(c.total, TimesOf(v), first)
              && r.parts == PartsOf(c.total, c.fields, v, first)
            case Core(k, v) =>
              k < |c.cores| ==> n.cores[k] == TimesOf(v) && r.cores[k] == UsageOf(c.cores[k], TimesOf(v), first)
            case ContextSwitches(now) =>
              && n.switches == now
              && r.switches == (if first || seconds <= 0.0 || now < c.switches then Absent
                                else Present((now - c.switches) as real / seconds))
            case Running(now) => r.running == Present(now as real)
            case Other => true
    decreases |lines|
  {
    var k := |lines| - 1;
    var front := lines[..k];
    var before := AfterLines(c, front, seconds, first);
    if i < k {
      LineDecides(c, front, seconds, first, i);
      OtherLine(before.0, before.1, lines[k], seconds, first, lines[i]);
      hide AfterLine, SameKind, UsageOf, PartsOf, TimesOf;
    } else {
      UntoldStays(c, front, seconds, first, lines[i]);
      hide UsageOf, PartsOf, TimesOf;
    }
  }

  /** The first sample of a process, which has nothing to compare with, reports the running
      processes and nothing else. */
  lemma {:induction false} FirstSampleSilent(c: Carried, lines: seq<StatLine>, seconds: real)
    ensures var r := AfterLines(c, lines, seconds, true).1;
            r.usage == Absent && r.parts == NoParts && r.switches == Absent &&
            forall k :: 0 <= k < |c.cores| ==> r.cores[k] == Absent
    decreases |lines|
  {
    if lines != [] {
      FirstSampleSilent(c, lines[..|lines| - 1], seconds);
      hide TimesOf;
    }
  }

  // ----------------------------------------------------------------- rates

  /** What the rates of a run of readings say the counter gained, where gaps[i] seconds
      pass before reading i + 1. */
  function Gained(ns: seq<U64>, gaps: seq<real>): real
    requires |ns| == |gaps| + 1
    decreases |gaps|
  {
    if gaps == [] then 0.0
    else
      var n := |gaps|;
      var rate := RateOf(ns[n], ns[n - 1], gaps[n - 1]);
      Gained(ns[..n], gaps[..n - 1]) + if rate.Present? then rate.value * gaps[n - 1] else 0.0
  }

  /** How far the counter fell at its resets. */
  function Fallen(ns: seq<U64>): nat
    decreases |ns|
  {
    if |ns| < 2 then 0
    else
      var n := |ns| - 1;
      Fallen(ns[..n]) + if ns[n] < ns[n - 1] then ns[n - 1] - ns[n] else 0
  }

  /** Rates account for everything a counter gained, resets apart. */
  lemma {:induction false} RatesTelescope(ns: seq<U64>, gaps: seq<real>)
    requires |ns| == |gaps| + 1 && forall i :: 0 <= i < |gaps| ==> gaps[i] > 0.0
    ensures Gained(ns, gaps) == (ns[|gaps|] - ns[0] + Fallen(ns)) as real
    decreases |gaps|
  {
    if gaps != [] {
      var n := |gaps|;
      RatesTelescope(ns[..n], gaps[..n - 1]);
      QuotientTimes(ns[n] as int - ns[n - 1] as int, gaps[n - 1]);
    }
  }

  lemma {:induction false} QuotientTimes(d: int, gap: real)
    requires gap > 0.0
    ensures d as real / gap * gap == d as real
  {
  }
}
