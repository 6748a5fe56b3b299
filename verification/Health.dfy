/** Weighted health score of the local node (internal/health/score.go). */
module Health {
  import opened Basics

  datatype ProcessConfig = ProcessConfig(
    processNames: seq<string>,
    processWeight: int,
    tcpWeight: int,
    udpWeight: int,
    dnsWeight: int,
    dnsEnabled: bool,
    dnsDomain: string,
    dnsDomains: seq<string>,
    latencyThreshold: int,
    bindAddress: string,
    bindAddresses: seq<string>)
  {
    predicate NonNegativeWeights() {
      processWeight >= 0 && tcpWeight >= 0 && udpWeight >= 0 && dnsWeight >= 0
    }

    function Names(): (names: seq<string>) {
      if |processNames| == 0 then ["dnsdist"] else processNames
    }

    function Addresses(): (addresses: seq<string>)
      ensures |addresses| > 0
    {
      if |bindAddresses| > 0 then bindAddresses
      else if bindAddress != "" then [bindAddress]
      else ["127.0.0.1:53"]
    }

    function Domains(): (domains: seq<string>)
      ensures |domains| > 0
    {
      if |dnsDomains| > 0 then dnsDomains
      else if dnsDomain != "" then [dnsDomain]
      else ["google.com"]
    }

    function UdpDomain(): string {
      if dnsDomain == "" && |dnsDomains| > 0 then dnsDomains[0] else dnsDomain
    }

    function DnsWeight(): int { if dnsEnabled then dnsWeight else 0 }

    function MaxScore(): int { processWeight + tcpWeight + udpWeight + DnsWeight() }

    /** Every weight multiplied by `c`. */
    function Scaled(c: int): ProcessConfig {
      this.(processWeight := c * processWeight, tcpWeight := c * tcpWeight,
      udpWeight := c * udpWeight, dnsWeight := c * dnsWeight)
    }
  }

  datatype DnsReply = DnsReply(success: bool, rtt: nat)

  /** What the outside world answers to each probe of one cycle. A probe is
      named by its position in the list it comes from and by its target. */
  datatype Probes = Probes(
    process: (nat, string) -> bool,
    tcp: (nat, string) -> bool,
    udp: (nat, string, string) -> bool,
    dns: (nat, string, nat, string) -> DnsReply)

  datatype HealthResult = HealthResult(
    score: int,
    raw: int,
    max: int,
    processAlive: bool,
    tcpAlive: bool,
    udpAlive: bool,
    dnsAlive: bool,
    dnsSlow: bool,
    dnsRtt: int)
  {
    /** What every result of the checks satisfies. */
    predicate Sound() {
      && 0 <= raw <= max
      && 0 <= score <= 100
      && (score == 100 <==> max > 0 && raw == max)
    }
  }

  // ----- what a check is meant to establish -----

  ghost predicate ProcessesUp(cfg: ProcessConfig, probes: Probes) {
    forall n: nat | n < |cfg.Names()| :: probes.process(n, cfg.Names()[n])
  }

  ghost predicate TcpUp(cfg: ProcessConfig, probes: Probes) {
    forall n: nat | n < |cfg.Addresses()| :: probes.tcp(n, cfg.Addresses()[n])
  }

  ghost predicate UdpUp(cfg: ProcessConfig, probes: Probes) {
    forall n: nat | n < |cfg.Addresses()| :: probes.udp(n, cfg.Addresses()[n], cfg.UdpDomain())
  }

  /** The reply to domain `j` asked at address `i`. */
  ghost function Reply(cfg: ProcessConfig, probes: Probes, i: nat, j: nat): DnsReply
    requires i < |cfg.Addresses()| && j < |cfg.Domains()|
  {
    probes.dns(i, cfg.Addresses()[i], j, cfg.Domains()[j])
  }

  ghost function Row(cfg: ProcessConfig, probes: Probes, i: nat): (row: seq<DnsReply>)
    requires i < |cfg.Addresses()|
    ensures |row| == |cfg.Domains()|
  {
    seq(|cfg.Domains()|, j requires 0 <= j < |cfg.Domains()| => Reply(cfg, probes, i, j))
  }

  /** The replies of the first `n` addresses, address by address. */
  ghost function Replies(cfg: ProcessConfig, probes: Probes, n: nat): (all: seq<DnsReply>)
    requires n <= |cfg.Addresses()|
    ensures n > 0 ==> |all| > 0
  {
    if n == 0 then [] else Replies(cfg, probes, n - 1) + Row(cfg, probes, n - 1)
  }

  ghost function AllReplies(cfg: ProcessConfig, probes: Probes): (all: seq<DnsReply>)
    ensures |all| > 0
  {
    Replies(cfg, probes, |cfg.Addresses()|)
  }

  /** The replies before the first failure. */
  ghost function Answered(replies: seq<DnsReply>): (answered: seq<DnsReply>)
    ensures answered <= replies
    ensures forall r | r in answered :: r.success
    ensures |answered| < |replies| ==> !replies[|answered|].success
  {
    if |replies| == 0 || !replies[0].success then []
    else [replies[0]] + Answered(replies[1..])
  }

  ghost function TotalRtt(replies: seq<DnsReply>): nat {
    if |replies| == 0 then 0 else TotalRtt(replies[..|replies| - 1]) + replies[|replies| - 1].rtt
  }

  ghost predicate IsSlow(cfg: ProcessConfig, r: DnsReply) {
    cfg.latencyThreshold > 0 && r.rtt > cfg.latencyThreshold
  }

  ghost predicate AnySlow(cfg: ProcessConfig, replies: seq<DnsReply>) {
    exists r | r in replies :: IsSlow(cfg, r)
  }

  ghost predicate DnsUp(cfg: ProcessConfig, probes: Probes) {
    cfg.dnsEnabled && forall r | r in AllReplies(cfg, probes) :: r.success
  }

  ghost predicate DnsSlow(cfg: ProcessConfig, probes: Probes) {
    cfg.dnsEnabled && AnySlow(cfg, Answered(AllReplies(cfg, probes)))
  }

  /** Mean round trip of the answered queries, or the failing reply's own time
      when nothing was answered. */
  ghost function DetailRtt(replies: seq<DnsReply>): int
    requires |replies| > 0
  {
    var answered := Answered(replies);
    if |answered| > 0 then TotalRtt(answered) / |answered| else replies[0].rtt
  }

  function Earned(alive: bool, weight: int): int { if alive then weight else 0 }

  /** DNS is worth half its weight when some answer was over the threshold. */
  function DnsEarned(alive: bool, slow: bool, weight: int): int {
    if !alive then 0 else if slow then weight / 2 else weight
  }

  function Normalise(raw: int, max: int): int {
    if max > 0 then raw * 100 / max else 0
  }

  ghost function RawScore(cfg: ProcessConfig, probes: Probes): int {
    Earned(ProcessesUp(cfg, probes), cfg.processWeight)
    + Earned(TcpUp(cfg, probes), cfg.tcpWeight)
    + Earned(UdpUp(cfg, probes), cfg.udpWeight)
    + DnsEarned(DnsUp(cfg, probes), DnsSlow(cfg, probes), cfg.DnsWeight())
  }

  ghost function Evaluate(cfg: ProcessConfig, probes: Probes): HealthResult {
    HealthResult(
      Normalise(RawScore(cfg, probes), cfg.MaxScore()),
      RawScore(cfg, probes),
      cfg.MaxScore(),
      ProcessesUp(cfg, probes),
      TcpUp(cfg, probes),
      UdpUp(cfg, probes),
      DnsUp(cfg, probes),
      DnsSlow(cfg, probes),
      if cfg.dnsEnabled then DetailRtt(AllReplies(cfg, probes)) else 0)
  }

  // ----- the scan of the replies -----

  lemma {:induction false} AnsweredUpToFailure(ok: seq<DnsReply>, failed: DnsReply, rest: seq<DnsReply>)
    requires forall r | r in ok :: r.success
    requires !failed.success
    ensures Answered(ok + [failed] + rest) == ok
  {
    var all := ok + [failed] + rest;
    if |ok| == 0 {
      assert all[0] == failed;
    } else {
      assert all[0] == ok[0];
      assert all[1..] == ok[1..] + [failed] + rest;
      AnsweredUpToFailure(ok[1..], failed, rest);
    }
  }

  lemma {:induction false} AnsweredAll(ok: seq<DnsReply>)
    requires forall r | r in ok :: r.success
    ensures Answered(ok) == ok
  {
    if |ok| > 0 {
      AnsweredAll(ok[1..]);
    }
  }

  lemma {:induction false} RepliesPrefix(cfg: ProcessConfig, probes: Probes, n: nat, m: nat)
    requires n <= m <= |cfg.Addresses()|
    ensures Replies(cfg, probes, n) <= Replies(cfg, probes, m)
  {
    if n < m {
      RepliesPrefix(cfg, probes, n, m - 1);
    }
  }

  lemma RowWithinAll(cfg: ProcessConfig, probes: Probes, i: nat)
    requires i < |cfg.Addresses()|
    ensures Replies(cfg, probes, i) + Row(cfg, probes, i) <= AllReplies(cfg, probes)
  {
    RepliesPrefix(cfg, probes, i + 1, |cfg.Addresses()|);
  }

  /** A failing query is where the scan of all replies stops. */
  lemma FailureIn(front: seq<DnsReply>, row: seq<DnsReply>, j: nat, all: seq<DnsReply>)
    requires j < |row| && !row[j].success
    requires front + row <= all
    requires forall r | r in front + row[..j] :: r.success
    ensures Answered(all) == front + row[..j]
    ensures row[j] in all
    ensures front == [] && j == 0 ==> all[0] == row[0]
  {
    var seen := front + row[..j];
    assert front + row == seen + [row[j]] + row[j + 1..];
    var rest := all[|seen| + 1..];
    assert all == seen + [row[j]] + rest;
    AnsweredUpToFailure(seen, row[j], rest);
    assert all[|seen|] == row[j];
  }

  // ----- the checks as the agent runs them -----

  method CheckProcesses(cfg: ProcessConfig, probes: Probes) returns (alive: bool)
    ensures alive == ProcessesUp(cfg, probes)
  {
    var names := cfg.Names();
    for n := 0 to |names|
      invariant forall m: nat | m < n :: probes.process(m, names[m])
    {
      if !probes.process(n, names[n]) {
        return false;
      }
    }
    return true;
  }

  method CheckAllTcp(cfg: ProcessConfig, probes: Probes) returns (allTcp: bool)
    ensures allTcp == TcpUp(cfg, probes)
  {
    var addresses := cfg.Addresses();
    allTcp := true;
    for n := 0 to |addresses|
      invariant allTcp
      invariant forall m: nat | m < n :: probes.tcp(m, addresses[m])
    {
      if !probes.tcp(n, addresses[n]) {
        allTcp := false;
        break;
      }
    }
  }

  method CheckAllUdp(cfg: ProcessConfig, probes: Probes) returns (allUdp: bool)
    ensures allUdp == UdpUp(cfg, probes)
  {
    var addresses, udpDomain := cfg.Addresses(), cfg.UdpDomain();
    allUdp := true;
    for n := 0 to |addresses|
      invariant allUdp
      invariant forall m: nat | m < n :: probes.udp(m, addresses[m], udpDomain)
    {
      if !probes.udp(n, addresses[n], udpDomain) {
        allUdp := false;
        break;
      }
    }
  }

  /** What the accumulators hold once `seen` has been answered. */
  ghost predicate Accumulated(cfg: ProcessConfig, seen: seq<DnsReply>, totalRtt: int, queryCount: int, anySlow: bool) {
    && (forall r | r in seen :: r.success)
    && queryCount == |seen|
    && totalRtt == TotalRtt(seen)
    && anySlow == AnySlow(cfg, seen)
  }

  /** The scan of `all` ended early, at a failing reply. */
  ghost predicate Stopped(all: seq<DnsReply>, seen: seq<DnsReply>, rtt: int) {
    && Answered(all) == seen
    && (exists r | r in all :: !r.success)
    && (seen == [] && all != [] ==> rtt == all[0].rtt)
  }

  lemma AccumulateOne(cfg: ProcessConfig, seen: seq<DnsReply>, totalRtt: int, queryCount: int, anySlow: bool,
                      res: DnsReply)
    requires Accumulated(cfg, seen, totalRtt, queryCount, anySlow) && res.success
    ensures Accumulated(cfg, seen + [res], totalRtt + res.rtt, queryCount + 1, anySlow || IsSlow(cfg, res))
  {
    var after := seen + [res];
    assert after[..|after| - 1] == seen;
    assert forall r :: r in after <==> r in seen || r == res;
  }

  lemma NothingSeen(cfg: ProcessConfig)
    ensures Accumulated(cfg, [], 0, 0, false)
  {
  }

  method CheckDns(cfg: ProcessConfig, probes: Probes) returns (allSuccess: bool, anySlow: bool, rtt: int)
    ensures allSuccess == forall r | r in AllReplies(cfg, probes) :: r.success
    ensures anySlow == AnySlow(cfg, Answered(AllReplies(cfg, probes)))
    ensures rtt == DetailRtt(AllReplies(cfg, probes))
  {
    hide Answered, AnySlow, TotalRtt;
    NothingSeen(cfg);
    var addresses, domains := cfg.Addresses(), cfg.Domains();
    allSuccess, anySlow := true, false;
    var totalRtt, queryCount := 0, 0;
    rtt := 0;
    ghost var seen: seq<DnsReply> := [];
    ghost var all := AllReplies(cfg, probes);
    var i := 0;
    while i < |addresses| && allSuccess
      invariant 0 <= i <= |addresses|
      invariant Accumulated(cfg, seen, totalRtt, queryCount, anySlow)
      invariant if allSuccess then seen == Replies(cfg, probes, i) else Stopped(all, seen, rtt)
      decreases |addresses| - i, allSuccess
    {
      ghost var front, row := seen, Row(cfg, probes, i);
      var j := 0;
      while j < |domains| && allSuccess
        invariant 0 <= j <= |domains|
        invariant Accumulated(cfg, seen, totalRtt, queryCount, anySlow)
        invariant if allSuccess then seen == front + row[..j] else Stopped(all, seen, rtt)
        decreases |domains| - j, allSuccess
      {
        var res := probes.dns(i, addresses[i], j, domains[j]);
        assert res == row[j];
        if !res.success {
          RowWithinAll(cfg, probes, i);
          FailureIn(front, row, j, all);
          allSuccess := false;
          rtt := res.rtt;
        } else {
          AccumulateOne(cfg, seen, totalRtt, queryCount, anySlow, res);
          seen := seen + [res];
          totalRtt, queryCount := totalRtt + res.rtt, queryCount + 1;
          if cfg.latencyThreshold > 0 && res.rtt > cfg.latencyThreshold {
            anySlow := true;
          }
          j := j + 1;
        }
      }
      if allSuccess {
        i := i + 1;
      }
    }
    if allSuccess {
      AnsweredAll(seen);
    }
    if queryCount > 0 {
      rtt := totalRtt / queryCount;
    }
  }

  method RunChecks(cfg: ProcessConfig, probes: Probes) returns (result: HealthResult)
    ensures result == Evaluate(cfg, probes)
  {
    hide AllReplies, Answered, AnySlow, DetailRtt, ProcessesUp, TcpUp, UdpUp;
    var dnsWeight := if cfg.dnsEnabled then cfg.dnsWeight else 0;
    var raw, max := 0, cfg.processWeight + cfg.tcpWeight + cfg.udpWeight + dnsWeight;

    var processAlive := CheckProcesses(cfg, probes);
    if processAlive {
      raw := raw + cfg.processWeight;
    }

    var allTcp := CheckAllTcp(cfg, probes);
    if allTcp {
      raw := raw + cfg.tcpWeight;
    }

    var allUdp := CheckAllUdp(cfg, probes);
    if allUdp {
      raw := raw + cfg.udpWeight;
    }

    var dnsAlive, dnsSlow, dnsRtt := false, false, 0;
    if cfg.dnsEnabled {
      dnsAlive, dnsSlow, dnsRtt := CheckDns(cfg, probes);
      if dnsAlive {
        raw := raw + if dnsSlow then dnsWeight / 2 else dnsWeight;
      }
    }

    assert raw == RawScore(cfg, probes) && max == cfg.MaxScore();
    var score := 0;
    if max > 0 {
      score := raw * 100 / max;
    }
    result := HealthResult(score, raw, max, processAlive, allTcp, allUdp, dnsAlive, dnsSlow, dnsRtt);
  }

  // ----- what is asked of whom -----

  /** Probe `n` of an address goes to `address`: the configured list, or else the
      single address, or else the loopback. */
  ghost predicate Listener(cfg: ProcessConfig, n: nat, address: string) {
    if |cfg.bindAddresses| > 0 then n < |cfg.bindAddresses| && address == cfg.bindAddresses[n]
    else n == 0 && address == if cfg.bindAddress != "" then cfg.bindAddress else "127.0.0.1:53"
  }

  /** Query `n` asks for `domain`. */
  ghost predicate Asked(cfg: ProcessConfig, n: nat, domain: string) {
    if |cfg.dnsDomains| > 0 then n < |cfg.dnsDomains| && domain == cfg.dnsDomains[n]
    else n == 0 && domain == if cfg.dnsDomain != "" then cfg.dnsDomain else "google.com"
  }

  /** Process probe `n` looks for `name`. */
  ghost predicate Watched(cfg: ProcessConfig, n: nat, name: string) {
    if |cfg.processNames| > 0 then n < |cfg.processNames| && name == cfg.processNames[n]
    else n == 0 && name == "dnsdist"
  }

  /** A check passes exactly when every configured target does: every process,
      every address by TCP and by UDP (asking for the single domain, or the first
      of the list), and every domain at every address by DNS. */
  lemma EveryTargetCounts(cfg: ProcessConfig, probes: Probes)
    ensures var h := Evaluate(cfg, probes);
      var udpDomain :=
        if cfg.dnsDomain != "" then cfg.dnsDomain else if |cfg.dnsDomains| > 0 then cfg.dnsDomains[0] else "";
      && (h.processAlive <==> forall n: nat, name | Watched(cfg, n, name) :: probes.process(n, name))
      && (h.tcpAlive <==> forall n: nat, a | Listener(cfg, n, a) :: probes.tcp(n, a))
      && (h.udpAlive <==> forall n: nat, a | Listener(cfg, n, a) :: probes.udp(n, a, udpDomain))
      && (h.dnsAlive <==>
          && cfg.dnsEnabled
          && forall n: nat, a, m: nat, d | Listener(cfg, n, a) && Asked(cfg, m, d) :: probes.dns(n, a, m, d).success)
  {
    hide AllReplies, Replies, Answered, DnsUp, RawScore;
    EveryQueryCounts(cfg, probes);
    EveryProbeCounts(cfg, probes);
  }

  lemma EveryProbeCounts(cfg: ProcessConfig, probes: Probes)
    ensures ProcessesUp(cfg, probes) <==> forall n: nat, name | Watched(cfg, n, name) :: probes.process(n, name)
    ensures TcpUp(cfg, probes) <==> forall n: nat, a | Listener(cfg, n, a) :: probes.tcp(n, a)
    ensures UdpUp(cfg, probes) <==> forall n: nat, a | Listener(cfg, n, a) :: probes.udp(n, a, cfg.UdpDomain())
  {
    TargetsAreListed(cfg);
    hide Listener, Watched;
    assert forall n: nat | n < |cfg.Names()| :: Watched(cfg, n, cfg.Names()[n]);
    assert forall n: nat | n < |cfg.Addresses()| :: Listener(cfg, n, cfg.Addresses()[n]);
  }

  lemma EveryQueryCounts(cfg: ProcessConfig, probes: Probes)
    ensures DnsUp(cfg, probes) <==>
      && cfg.dnsEnabled
      && forall n: nat, a, m: nat, d | Listener(cfg, n, a) && Asked(cfg, m, d) :: probes.dns(n, a, m, d).success
  {
    hide AllReplies, Listener, Asked;
    RepliesAreAll(cfg, probes);
    if DnsUp(cfg, probes) {
      forall n: nat, a, m: nat, d | Listener(cfg, n, a) && Asked(cfg, m, d)
        ensures probes.dns(n, a, m, d).success
      {
        assert probes.dns(n, a, m, d) in AllReplies(cfg, probes);
      }
    }
  }

  lemma TargetsAreListed(cfg: ProcessConfig)
    ensures forall n: nat, a :: Listener(cfg, n, a) <==> n < |cfg.Addresses()| && a == cfg.Addresses()[n]
    ensures forall n: nat, d :: Asked(cfg, n, d) <==> n < |cfg.Domains()| && d == cfg.Domains()[n]
    ensures forall n: nat, p :: Watched(cfg, n, p) <==> n < |cfg.Names()| && p == cfg.Names()[n]
  {
  }

  /** The scan sees every domain asked at every address. */
  lemma RepliesAreAll(cfg: ProcessConfig, probes: Probes)
    ensures forall r :: r in AllReplies(cfg, probes) <==>
      exists n: nat, a, m: nat, d | Listener(cfg, n, a) && Asked(cfg, m, d) :: r == probes.dns(n, a, m, d)
  {
    TargetsAreListed(cfg);
    forall r
      ensures r in AllReplies(cfg, probes) <==>
        exists n: nat, a, m: nat, d | Listener(cfg, n, a) && Asked(cfg, m, d) :: r == probes.dns(n, a, m, d)
    {
      ReplyIn(cfg, probes, |cfg.Addresses()|, r);
      if i: nat, j: nat :| i < |cfg.Addresses()| && j < |cfg.Domains()| && r == Reply(cfg, probes, i, j) {
        assert Listener(cfg, i, cfg.Addresses()[i]) && Asked(cfg, j, cfg.Domains()[j]);
      }
      if n: nat, a, m: nat, d :| Listener(cfg, n, a) && Asked(cfg, m, d) && r == probes.dns(n, a, m, d) {
        assert r == Reply(cfg, probes, n, m);
      }
    }
  }

  lemma {:induction false} ReplyIn(cfg: ProcessConfig, probes: Probes, n: nat, r: DnsReply)
    requires n <= |cfg.Addresses()|
    ensures r in Replies(cfg, probes, n) <==>
      exists i: nat, j: nat :: i < n && j < |cfg.Domains()| && r == Reply(cfg, probes, i, j)
  {
    if n > 0 {
      ReplyIn(cfg, probes, n - 1, r);
      var row := Row(cfg, probes, n - 1);
      if r in row {
        var j: nat :| j < |row| && row[j] == r;
        assert r == Reply(cfg, probes, n - 1, j);
      }
      if i: nat, j: nat :| i < n && j < |cfg.Domains()| && r == Reply(cfg, probes, i, j) {
        if i == n - 1 {
          assert row[j] == r;
        }
      }
    }
  }

  /** Once every query is answered, slow means that some answer took longer than
      a positive threshold. */
  lemma SlowExactly(cfg: ProcessConfig, probes: Probes)
    requires Evaluate(cfg, probes).dnsAlive
    ensures Evaluate(cfg, probes).dnsSlow <==>
      && cfg.latencyThreshold > 0
      && exists n: nat, a, m: nat, d | Listener(cfg, n, a) && Asked(cfg, m, d) ::
          probes.dns(n, a, m, d).rtt > cfg.latencyThreshold
  {
    hide AllReplies, Replies;
    RepliesAreAll(cfg, probes);
    AnsweredAll(AllReplies(cfg, probes));
    if AnySlow(cfg, AllReplies(cfg, probes)) {
      var r :| r in AllReplies(cfg, probes) && IsSlow(cfg, r);
      var n: nat, a, m: nat, d :| Listener(cfg, n, a) && Asked(cfg, m, d) && r == probes.dns(n, a, m, d);
    }
    if n: nat, a, m: nat, d :|
      Listener(cfg, n, a) && Asked(cfg, m, d) && probes.dns(n, a, m, d).rtt > cfg.latencyThreshold > 0 {
      assert probes.dns(n, a, m, d) in AllReplies(cfg, probes);
    }
  }

  /** The score is the percentage of the enabled weights that was earned, DNS
      counting half, rounded down, when slow. */
  lemma ScoreExactly(cfg: ProcessConfig, probes: Probes)
    ensures var h := Evaluate(cfg, probes);
      && h.max == cfg.processWeight + cfg.tcpWeight + cfg.udpWeight + (if cfg.dnsEnabled then cfg.dnsWeight else 0)
      && h.raw
        == (if h.processAlive then cfg.processWeight else 0) + (if h.tcpAlive then cfg.tcpWeight else 0)
           + (if h.udpAlive then cfg.udpWeight else 0)
           + (if !h.dnsAlive then 0 else if h.dnsSlow then cfg.dnsWeight / 2 else cfg.dnsWeight)
      && h.score == (if h.max > 0 then h.raw * 100 / h.max else 0)
  {
    hide AllReplies, Replies, Answered, AnySlow, ProcessesUp, TcpUp, UdpUp;
  }

  // ----- what the score means -----

  /** Raw score never leaves 0..max. */
  lemma RawWithinMax(cfg: ProcessConfig, probes: Probes)
    requires cfg.NonNegativeWeights()
    ensures 0 <= Evaluate(cfg, probes).raw <= Evaluate(cfg, probes).max
  {
  }

  lemma ProductAtLeast(q: int, r: int, m: int, bound: int)
    requires 0 <= r < m
    ensures q >= bound <==> q * m + r >= bound * m
  {
    if q >= bound {
      ScaleComparison(q, bound, m);
    } else {
      ScaleComparison(bound, q + 1, m);
      assert m * (q + 1) == q * m + m;
    }
  }

  lemma QuotientThreshold(a: int, m: int, bound: int)
    requires m > 0
    ensures a / m >= bound <==> a >= bound * m
  {
    assert a == a / m * m + a % m;
    ProductAtLeast(a / m, a % m, m, bound);
  }

  lemma NormaliseThreshold(raw: int, max: int, percent: nat)
    requires max > 0
    ensures Normalise(raw, max) >= percent <==> 100 * raw >= percent * max
  {
    QuotientThreshold(raw * 100, max, percent);
  }

  lemma NormalisedRange(raw: int, max: int)
    requires 0 <= raw <= max
    ensures 0 <= Normalise(raw, max) <= 100
    ensures Normalise(raw, max) == 100 <==> max > 0 && raw == max
    ensures Normalise(raw, max) >= 80 <==> max > 0 && 5 * raw >= 4 * max
    ensures Normalise(raw, max) >= 40 <==> max > 0 && 5 * raw >= 2 * max
  {
    if max > 0 {
      NormaliseThreshold(raw, max, 0);
      NormaliseThreshold(raw, max, 40);
      NormaliseThreshold(raw, max, 80);
      NormaliseThreshold(raw, max, 100);
      NormaliseThreshold(raw, max, 101);
    }
  }

  /** The normalised score stays in 0..100, reaches 100 only when every enabled
      weight was earned in full, and meets the state thresholds exactly at 4/5
      and 2/5 of the maximum. */
  lemma ScoreMeaning(cfg: ProcessConfig, probes: Probes)
    requires cfg.NonNegativeWeights()
    ensures var h := Evaluate(cfg, probes);
      && h.Sound()
      && (StateFromScore(h.score) == Healthy <==> h.max > 0 && 5 * h.raw >= 4 * h.max)
      && (StateFromScore(h.score) == Unhealthy <==> h.max == 0 || 5 * h.raw < 2 * h.max)
  {
    RawWithinMax(cfg, probes);
    NormalisedRange(RawScore(cfg, probes), cfg.MaxScore());
  }

  lemma NormaliseScales(raw: int, max: int, c: int)
    requires 0 <= raw && c > 0
    ensures Normalise(c * raw, c * max) == Normalise(raw, max)
  {
    if max > 0 {
      assert c * max > 0;
      var q := raw * 100 / max;
      QuotientAtLeast(raw * 100, max, c, q);
      QuotientAtLeast(raw * 100, max, c, q + 1);
      assert c * (raw * 100) == c * raw * 100;
    } else {
      assert c * max <= 0;
    }
  }

  /** Scaling numerator and denominator keeps every lower bound of a quotient. */
  lemma QuotientAtLeast(a: int, m: int, c: int, bound: int)
    requires m > 0 && c > 0 && c * m > 0
    ensures a / m >= bound <==> (c * a) / (c * m) >= bound
  {
    QuotientThreshold(a, m, bound);
    QuotientThreshold(c * a, c * m, bound);
    ScaleComparison(a, bound * m, c);
    assert c * (bound * m) == bound * (c * m);
  }

  lemma ScaleComparison(a: int, b: int, c: int)
    requires c > 0
    ensures a >= b <==> c * a >= c * b
  {
    if a >= b {
      assert c * (a - b) >= 0;
    } else {
      assert c * (b - a) > 0;
    }
  }

  /** Scaling the weights keeps the score when the halved DNS weight is not
      rounded. */
  lemma ScalingWeightsKeepsScore(cfg: ProcessConfig, probes: Probes, c: int)
    requires cfg.NonNegativeWeights() && c > 0
    requires DnsUp(cfg, probes) && DnsSlow(cfg, probes) ==> cfg.dnsWeight % 2 == 0
    ensures Evaluate(cfg.Scaled(c), probes).score == Evaluate(cfg, probes).score
  {
    RawScales(cfg, probes, c);
    RawWithinMax(cfg, probes);
    NormaliseScales(RawScore(cfg, probes), cfg.MaxScore(), c);
  }

  lemma RawScales(cfg: ProcessConfig, probes: Probes, c: int)
    requires DnsUp(cfg, probes) && DnsSlow(cfg, probes) ==> cfg.dnsWeight % 2 == 0
    ensures RawScore(cfg.Scaled(c), probes) == c * RawScore(cfg, probes)
    ensures cfg.Scaled(c).MaxScore() == c * cfg.MaxScore()
  {
    SameOutcomes(cfg, cfg.Scaled(c), probes);
    var p, t, u := ProcessesUp(cfg, probes), TcpUp(cfg, probes), UdpUp(cfg, probes);
    var d, slow := DnsUp(cfg, probes), DnsSlow(cfg, probes);
    EarnedScales(p, cfg.processWeight, c);
    EarnedScales(t, cfg.tcpWeight, c);
    EarnedScales(u, cfg.udpWeight, c);
    DnsEarnedScales(d, slow, cfg.DnsWeight(), c);
    SumScales(Earned(p, cfg.processWeight), Earned(t, cfg.tcpWeight), Earned(u, cfg.udpWeight),
              DnsEarned(d, slow, cfg.DnsWeight()), c);
    SumScales(cfg.processWeight, cfg.tcpWeight, cfg.udpWeight, cfg.DnsWeight(), c);
  }

  lemma SumScales(w: int, x: int, y: int, z: int, c: int)
    ensures c * w + c * x + c * y + c * z == c * (w + x + y + z)
  {
  }

  lemma EarnedScales(alive: bool, weight: int, c: int)
    ensures Earned(alive, c * weight) == c * Earned(alive, weight)
  {
  }

  lemma DnsEarnedScales(alive: bool, slow: bool, weight: int, c: int)
    requires alive && slow ==> weight % 2 == 0
    ensures DnsEarned(alive, slow, c * weight) == c * DnsEarned(alive, slow, weight)
  {
    if alive && slow {
      var half := weight / 2;
      assert c * weight == 2 * (c * half);
    }
  }

  /** Check outcomes depend on the targets and the threshold, not on weights. */
  lemma SameOutcomes(a: ProcessConfig, b: ProcessConfig, probes: Probes)
    requires a.Addresses() == b.Addresses() && a.Domains() == b.Domains() && a.Names() == b.Names()
    requires a.UdpDomain() == b.UdpDomain() && a.dnsEnabled == b.dnsEnabled
    requires a.latencyThreshold == b.latencyThreshold
    ensures ProcessesUp(a, probes) == ProcessesUp(b, probes)
    ensures TcpUp(a, probes) == TcpUp(b, probes)
    ensures UdpUp(a, probes) == UdpUp(b, probes)
    ensures DnsUp(a, probes) == DnsUp(b, probes)
    ensures DnsSlow(a, probes) == DnsSlow(b, probes)
  {
    SameReplies(a, b, probes, |a.Addresses()|);
    assert forall r :: IsSlow(a, r) == IsSlow(b, r);
  }

  lemma {:induction false} SameReplies(a: ProcessConfig, b: ProcessConfig, probes: Probes, n: nat)
    requires a.Addresses() == b.Addresses() && a.Domains() == b.Domains()
    requires n <= |a.Addresses()|
    ensures Replies(a, probes, n) == Replies(b, probes, n)
  {
    if n > 0 {
      SameReplies(a, b, probes, n - 1);
      assert Row(a, probes, n - 1) == Row(b, probes, n - 1);
    }
  }

  /** The half point an odd DNS weight loses to rounding is what separates the
      score from the next percent. */
  ghost predicate RoundingCosts(cfg: ProcessConfig, probes: Probes) {
    && DnsUp(cfg, probes) && DnsSlow(cfg, probes) && cfg.dnsWeight % 2 == 1
    && cfg.MaxScore() > 0
    && RawScore(cfg, probes) * 100 % cfg.MaxScore() + 50 >= cfg.MaxScore()
  }

  /** Halving an odd weight after scaling gains `c / 2` over scaling the half. */
  lemma HalfScales(weight: nat, c: int)
    requires weight % 2 == 1 && c > 0
    ensures (c * weight) / 2 == c * (weight / 2) + c / 2
  {
    var half := weight / 2;
    assert c * weight == 2 * (c * half) + c;
  }

  lemma RawScalesRounded(cfg: ProcessConfig, probes: Probes, c: int)
    requires c > 0 && cfg.NonNegativeWeights()
    requires DnsUp(cfg, probes) && DnsSlow(cfg, probes) && cfg.dnsWeight % 2 == 1
    ensures RawScore(cfg.Scaled(c), probes) == c * RawScore(cfg, probes) + c / 2
    ensures cfg.Scaled(c).MaxScore() == c * cfg.MaxScore()
  {
    hide ProcessesUp, TcpUp, UdpUp, AnySlow, AllReplies, Answered;
    SameOutcomes(cfg, cfg.Scaled(c), probes);
    var p, t, u := ProcessesUp(cfg, probes), TcpUp(cfg, probes), UdpUp(cfg, probes);
    EarnedScales(p, cfg.processWeight, c);
    EarnedScales(t, cfg.tcpWeight, c);
    EarnedScales(u, cfg.udpWeight, c);
    HalfScales(cfg.dnsWeight, c);
    SumScales(Earned(p, cfg.processWeight), Earned(t, cfg.tcpWeight), Earned(u, cfg.udpWeight), cfg.dnsWeight / 2, c);
    SumScales(cfg.processWeight, cfg.tcpWeight, cfg.udpWeight, cfg.DnsWeight(), c);
  }

  /** Gaining `e` points in a score scaled by `c` lifts the percentage only if
      `100 * e` covers what is missing to the next one. */
  lemma LiftedScore(raw: nat, max: int, c: int, e: nat)
    requires max > 0 && c > 0
    ensures Normalise(c * raw + e, c * max) >= Normalise(raw, max)
    ensures Normalise(c * raw + e, c * max) > Normalise(raw, max) <==> 100 * e >= c * (max - raw * 100 % max)
  {
    var q, rem := raw * 100 / max, raw * 100 % max;
    assert raw * 100 == q * max + rem;
    assert c * max > 0;
    NormaliseThreshold(c * raw + e, c * max, q);
    NormaliseThreshold(c * raw + e, c * max, q + 1);
    Distribute(c, raw, q, max, rem);
    assert c * rem >= 0;
  }

  lemma Distribute(c: int, raw: int, q: int, max: int, rem: int)
    requires raw * 100 == q * max + rem
    ensures 100 * (c * raw) == q * (c * max) + c * rem
    ensures (q + 1) * (c * max) == q * (c * max) + c * max
    ensures c * (max - rem) == c * max - c * rem
  {
    assert 100 * (c * raw) == c * (raw * 100) == c * (q * max) + c * rem;
    assert c * (q * max) == q * (c * max);
  }

  /** What the raw score, in percent, lacks to the next point. */
  ghost function Missing(cfg: ProcessConfig, probes: Probes): int
    requires cfg.MaxScore() > 0
  {
    cfg.MaxScore() - RawScore(cfg, probes) * 100 % cfg.MaxScore()
  }

  lemma ScoreIsNormalised(cfg: ProcessConfig, probes: Probes)
    ensures Evaluate(cfg, probes).score == Normalise(RawScore(cfg, probes), cfg.MaxScore())
  {
  }

  lemma RawNonNegative(cfg: ProcessConfig, probes: Probes)
    requires cfg.NonNegativeWeights()
    ensures RawScore(cfg, probes) >= 0
  {
  }

  lemma RoundedScaling(cfg: ProcessConfig, probes: Probes, c: int)
    requires c > 0 && cfg.NonNegativeWeights() && cfg.MaxScore() > 0
    requires DnsUp(cfg, probes) && DnsSlow(cfg, probes) && cfg.dnsWeight % 2 == 1
    ensures Evaluate(cfg.Scaled(c), probes).score == Evaluate(cfg, probes).score
      <==> 100 * (c / 2) < c * Missing(cfg, probes)
  {
    hide Evaluate, RawScore, Normalise, DnsUp, DnsSlow, ProcessConfig.MaxScore, ProcessConfig.Scaled;
    ScoreIsNormalised(cfg, probes);
    ScoreIsNormalised(cfg.Scaled(c), probes);
    RawNonNegative(cfg, probes);
    RawScalesRounded(cfg, probes, c);
    LiftedScore(RawScore(cfg, probes), cfg.MaxScore(), c, c / 2);
  }

  lemma HalfGain(c: int, missing: int)
    requires c > 0
    ensures missing > 50 ==> 100 * (c / 2) < c * missing
    ensures missing <= 50 && c == 2 ==> 100 * (c / 2) >= c * missing
  {
    ScaleComparison(missing, 51, c);
  }

  /** Where rounding costs a percent, doubling the weights already shows it. */
  lemma DoublingShows(cfg: ProcessConfig, probes: Probes)
    requires cfg.NonNegativeWeights() && RoundingCosts(cfg, probes)
    ensures Evaluate(cfg.Scaled(2), probes).score != Evaluate(cfg, probes).score
  {
    hide Evaluate, DnsUp, DnsSlow, RawScore;
    RoundedScaling(cfg, probes, 2);
    HalfGain(2, Missing(cfg, probes));
  }

  /** Only the ratio of the weights matters, exactly unless the penalty for a
      slow answer rounds an odd DNS weight and that rounding costs a percent. */
  lemma ScalingIsExact(cfg: ProcessConfig, probes: Probes)
    requires cfg.NonNegativeWeights()
    ensures (forall c: int | c > 0 :: Evaluate(cfg.Scaled(c), probes).score == Evaluate(cfg, probes).score)
      <==> !RoundingCosts(cfg, probes)
  {
    hide Evaluate, DnsSlow, AllReplies, RawScore;
    if DnsUp(cfg, probes) && DnsSlow(cfg, probes) && cfg.dnsWeight % 2 == 1 {
      forall c: int | c > 0
        ensures Evaluate(cfg.Scaled(c), probes).score == Evaluate(cfg, probes).score
          <==> 100 * (c / 2) < c * Missing(cfg, probes)
      {
        RoundedScaling(cfg, probes, c);
      }
      forall c: int | c > 0
        ensures Missing(cfg, probes) > 50 ==> 100 * (c / 2) < c * Missing(cfg, probes)
      {
        HalfGain(c, Missing(cfg, probes));
      }
      if RoundingCosts(cfg, probes) {
        DoublingShows(cfg, probes);
      }
    } else {
      forall c: int | c > 0
        ensures Evaluate(cfg.Scaled(c), probes).score == Evaluate(cfg, probes).score
      {
        ScalingWeightsKeepsScore(cfg, probes, c);
      }
    }
  }

  /** A node that checks one DNS name with weight 1, answered slowly. */
  function SlowDnsOnly(): ProcessConfig {
    ProcessConfig([], 0, 0, 0, 1, true, "a", [], 5, "b", [])
  }

  function SlowReplies(): Probes {
    Probes((n, s) => true, (n, s) => true, (n, s, d) => true, (n, s, m, d) => DnsReply(true, 9))
  }

  lemma SlowDnsOnlyIsSlow()
    ensures DnsUp(SlowDnsOnly(), SlowReplies()) && DnsSlow(SlowDnsOnly(), SlowReplies())
  {
    var cfg, probes, slow := SlowDnsOnly(), SlowReplies(), DnsReply(true, 9);
    assert Row(cfg, probes, 0) == [slow];
    assert Replies(cfg, probes, 0) == [];
    assert AllReplies(cfg, probes) == [slow];
    AnsweredAll([slow]);
    assert slow in [slow] && IsSlow(cfg, slow);
  }

  lemma SlowDnsOnlyEarnsNothing()
    ensures RawScore(SlowDnsOnly(), SlowReplies()) == 0 && SlowDnsOnly().MaxScore() == 1
  {
    hide DnsUp, DnsSlow, ProcessesUp, TcpUp, UdpUp;
    SlowDnsOnlyIsSlow();
  }

  /** Such a rounding does occur: for that node, doubling the weights changes the
      score. */
  lemma ScalingFailsOnRoundedPenalty()
    ensures var cfg, probes := SlowDnsOnly(), SlowReplies();
      cfg.NonNegativeWeights() && Evaluate(cfg.Scaled(2), probes).score != Evaluate(cfg, probes).score
  {
    hide DnsUp, DnsSlow, Evaluate, RawScore, SlowReplies, ProcessConfig.MaxScore, ProcessConfig.Scaled;
    SlowDnsOnlyIsSlow();
    SlowDnsOnlyEarnsNothing();
    DoublingShows(SlowDnsOnly(), SlowReplies());
  }

  /** A DNS check over the latency threshold is never a full score, so a slow
      resolver can never pass the recovery gate. */
  lemma SlowIsNeverFull(cfg: ProcessConfig, probes: Probes)
    requires cfg.NonNegativeWeights() && cfg.DnsWeight() > 0
    requires DnsSlow(cfg, probes)
    ensures Evaluate(cfg, probes).raw < Evaluate(cfg, probes).max
  {
  }

  lemma {:induction false} FastTotal(cfg: ProcessConfig, replies: seq<DnsReply>)
    requires cfg.latencyThreshold > 0 && !AnySlow(cfg, replies)
    ensures TotalRtt(replies) <= |replies| * cfg.latencyThreshold
  {
    if |replies| > 0 {
      var front, last := replies[..|replies| - 1], replies[|replies| - 1];
      assert last in replies && !IsSlow(cfg, last);
      assert forall r | r in front :: r in replies;
      FastTotal(cfg, front);
      assert |replies| * cfg.latencyThreshold == |front| * cfg.latencyThreshold + cfg.latencyThreshold;
    }
  }

  lemma MeanAtMost(total: nat, count: nat, bound: int)
    requires count > 0 && total <= count * bound
    ensures total / count <= bound
  {
    var mean := total / count;
    assert mean * count <= total;
    ScaleComparison(bound, mean, count);
  }

  /** A mean round trip over the threshold is reported as slow, unless it is the
      time of a first query that failed, which is no answer. */
  lemma MeanOverThresholdIsSlow(cfg: ProcessConfig, probes: Probes)
    requires cfg.latencyThreshold > 0 && cfg.dnsEnabled
    requires Evaluate(cfg, probes).dnsRtt > cfg.latencyThreshold
    ensures Evaluate(cfg, probes).dnsSlow <==> AllReplies(cfg, probes)[0].success
  {
    hide AllReplies;
    var answered := Answered(AllReplies(cfg, probes));
    if |answered| > 0 && !AnySlow(cfg, answered) {
      FastTotal(cfg, answered);
      MeanAtMost(TotalRtt(answered), |answered|, cfg.latencyThreshold);
      assert false;
    }
  }

  /** The reported round trip is the whole part of the mean over the queries
      answered before the first failure, or, if there is none, the time that
      failure took. */
  lemma RttExactly(cfg: ProcessConfig, probes: Probes)
    requires cfg.dnsEnabled
    ensures var answered, rtt := Answered(AllReplies(cfg, probes)), Evaluate(cfg, probes).dnsRtt;
      if |answered| > 0 then rtt * |answered| <= TotalRtt(answered) < (rtt + 1) * |answered|
      else rtt == AllReplies(cfg, probes)[0].rtt
  {
    hide AllReplies, Answered, TotalRtt;
    var answered := Answered(AllReplies(cfg, probes));
    if |answered| > 0 {
      var total, count := TotalRtt(answered), |answered|;
      assert total == total / count * count + total % count;
    }
  }

  // ----- which scores can occur -----

  /** How the four checks can turn out. */
  datatype Outcomes = Outcomes(process: bool, tcp: bool, udp: bool, dns: bool, late: bool)

  /** An answer can be late only when a threshold is set. */
  predicate Possible(cfg: ProcessConfig, o: Outcomes) {
    o.late ==> cfg.latencyThreshold > 0
  }

  function Points(cfg: ProcessConfig, o: Outcomes): int {
    Earned(o.process, cfg.processWeight) + Earned(o.tcp, cfg.tcpWeight) + Earned(o.udp, cfg.udpWeight)
    + DnsEarned(o.dns, o.late, cfg.DnsWeight())
  }

  /** Some answers to the probes give a score from `low` to `high`. */
  ghost predicate CanScore(cfg: ProcessConfig, low: int, high: int) {
    exists probes :: low <= Evaluate(cfg, probes).score <= high
  }

  function UniformReply(cfg: ProcessConfig, o: Outcomes): DnsReply {
    DnsReply(o.dns, if o.late && cfg.latencyThreshold > 0 then cfg.latencyThreshold + 1 else 0)
  }

  /** Answers that make the checks turn out as `o`. */
  function Uniform(cfg: ProcessConfig, o: Outcomes): Probes {
    Probes((n, s) => o.process, (n, s) => o.tcp, (n, s, d) => o.udp, (n, s, m, d) => UniformReply(cfg, o))
  }

  lemma {:induction false} UniformReplies(cfg: ProcessConfig, o: Outcomes, n: nat)
    requires n <= |cfg.Addresses()|
    ensures forall r | r in Replies(cfg, Uniform(cfg, o), n) :: r == UniformReply(cfg, o)
  {
    if n > 0 {
      UniformReplies(cfg, o, n - 1);
    }
  }

  lemma UniformDns(cfg: ProcessConfig, o: Outcomes)
    requires Possible(cfg, o)
    ensures DnsUp(cfg, Uniform(cfg, o)) <==> cfg.dnsEnabled && o.dns
    ensures cfg.dnsEnabled && o.dns ==> (DnsSlow(cfg, Uniform(cfg, o)) <==> o.late)
  {
    var all, reply := AllReplies(cfg, Uniform(cfg, o)), UniformReply(cfg, o);
    UniformReplies(cfg, o, |cfg.Addresses()|);
    assert all[0] in all && all[0] == reply;
    if o.dns {
      AnsweredAll(all);
    }
  }

  lemma UniformPoints(cfg: ProcessConfig, o: Outcomes)
    requires Possible(cfg, o)
    ensures RawScore(cfg, Uniform(cfg, o)) == Points(cfg, o)
  {
    hide DnsUp, DnsSlow;
    var probes := Uniform(cfg, o);
    UniformDns(cfg, o);
    assert |cfg.Names()| > 0 && |cfg.Addresses()| > 0;
    assert probes.process(0, cfg.Names()[0]) == o.process;
    assert probes.tcp(0, cfg.Addresses()[0]) == o.tcp;
    assert probes.udp(0, cfg.Addresses()[0], cfg.UdpDomain()) == o.udp;
  }

  /** The scores a configuration can give are those of the outcomes of its
      checks taken as a whole: no answer to the probes gives another one. */
  lemma CanScoreIff(cfg: ProcessConfig, low: int, high: int)
    ensures CanScore(cfg, low, high)
      <==> exists o :: Possible(cfg, o) && low <= Normalise(Points(cfg, o), cfg.MaxScore()) <= high
  {
    hide DnsUp, ProcessesUp, TcpUp, UdpUp, Normalise, Answered, AllReplies, Uniform;
    if CanScore(cfg, low, high) {
      var probes :| low <= Evaluate(cfg, probes).score <= high;
      var o := Outcomes(ProcessesUp(cfg, probes), TcpUp(cfg, probes), UdpUp(cfg, probes),
                        DnsUp(cfg, probes), DnsSlow(cfg, probes));
      assert Possible(cfg, o) && Points(cfg, o) == RawScore(cfg, probes);
    }
    if o :| Possible(cfg, o) && low <= Normalise(Points(cfg, o), cfg.MaxScore()) <= high {
      UniformPoints(cfg, o);
      assert low <= Evaluate(cfg, Uniform(cfg, o)).score <= high;
    }
  }

  const PASSED := Outcomes(true, true, true, true, false)
  const FAILED := Outcomes(false, false, false, false, false)

  /** Every probe answered at once, or none answered. */
  lemma AllOrNothing(cfg: ProcessConfig)
    requires cfg.MaxScore() > 0
    ensures Evaluate(cfg, Uniform(cfg, PASSED)).raw == cfg.MaxScore()
    ensures Evaluate(cfg, Uniform(cfg, PASSED)).score == 100
    ensures Evaluate(cfg, Uniform(cfg, FAILED)).score == 0
  {
    hide DnsUp, DnsSlow, ProcessesUp, TcpUp, UdpUp, Uniform, RawScore;
    UniformPoints(cfg, PASSED);
    UniformPoints(cfg, FAILED);
    NormalisedRange(cfg.MaxScore(), cfg.MaxScore());
  }
}
