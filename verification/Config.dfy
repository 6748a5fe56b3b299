/** The configuration the controller reads, with the defaults it applies on the
    way in (internal/config/validate.go, internal/agent/runner.go). */
module Config {
  import opened Basics
  import Health

  datatype Levels = Levels(healthy: int, degraded: int, unhealthy: int)

  datatype Weights = Weights(process: int, tcp: int, udp: int, dns: int)

  datatype Config = Config(
    mode: PolicyMode,
    demotion: Levels,
    recoveryConfirm: int,
    notifyConfirm: int,
    cooldown: int,
    vipLossAlert: bool,
    peerEnabled: bool,
    stateFile: bool,
    processCheck: bool,
    tcpCheck: bool,
    udpCheck: bool,
    weights: Weights,
    targets: Health.ProcessConfig)
  {
    /** The validation rules the controller relies on. */
    predicate Valid() {
      && 0 <= demotion.healthy <= 255
      && 0 <= demotion.degraded <= 255
      && 0 <= demotion.unhealthy <= 255
      && demotion.unhealthy > demotion.degraded
      && demotion.degraded >= demotion.healthy
      && recoveryConfirm >= 0
      && notifyConfirm >= 0
      && cooldown > 0
      && 0 <= weights.process <= 100
      && 0 <= weights.tcp <= 100
      && 0 <= weights.udp <= 100
      && 0 <= weights.dns <= 100
      && (targets.dnsEnabled ==> targets.latencyThreshold >= 0)
    }

    /** Demotion per state; a zero degraded or unhealthy value counts as unset. */
    function Demotions(): Levels {
      Levels(
        demotion.healthy,
        if demotion.degraded == 0 then DEFAULT_DEGRADED else demotion.degraded,
        if demotion.unhealthy == 0 then DEFAULT_UNHEALTHY else demotion.unhealthy)
    }

    /** Fully healthy cycles needed to reclaim; zero counts as unset. */
    function RecoveryConfirm(): int {
      if recoveryConfirm == 0 then DEFAULT_RECOVERY_CONFIRM else recoveryConfirm
    }

    /** Cycles a state must hold to be announced; zero counts as unset. */
    function NotifyConfirm(): int {
      if notifyConfirm == 0 then DEFAULT_NOTIFY_CONFIRM else notifyConfirm
    }

    /** The check setup of one cycle: defaults filled in, disabled checks at 0. */
    function Checks(): Health.ProcessConfig {
      targets.(
        processWeight := if processCheck then WeightOrDefault(weights.process) else 0,
        tcpWeight := if tcpCheck then WeightOrDefault(weights.tcp) else 0,
        udpWeight := if udpCheck then WeightOrDefault(weights.udp) else 0,
        dnsWeight := WeightOrDefault(weights.dns))
    }
  }

  /** What the checks are worth: each its configured weight, 25 if that is not
      set, and nothing when the check is off; their targets are as configured. */
  lemma WeightsExactly(cfg: Config, probes: Health.Probes)
    requires cfg.Valid()
    ensures var h, w, checks := Health.Evaluate(cfg.Checks(), probes), cfg.weights, cfg.Checks();
      var process := if !cfg.processCheck then 0 else if w.process > 0 then w.process else 25;
      var tcp := if !cfg.tcpCheck then 0 else if w.tcp > 0 then w.tcp else 25;
      var udp := if !cfg.udpCheck then 0 else if w.udp > 0 then w.udp else 25;
      var dns := if w.dns > 0 then w.dns else 25;
      && h.max == process + tcp + udp + (if cfg.targets.dnsEnabled then dns else 0)
      && h.raw
        == (if h.processAlive then process else 0) + (if h.tcpAlive then tcp else 0) + (if h.udpAlive then udp else 0)
           + (if !h.dnsAlive then 0 else if h.dnsSlow then dns / 2 else dns)
      && checks.(processWeight := 0, tcpWeight := 0, udpWeight := 0, dnsWeight := 0)
        == cfg.targets.(processWeight := 0, tcpWeight := 0, udpWeight := 0, dnsWeight := 0)
  {
    hide Health.Evaluate;
    Health.ScoreExactly(cfg.Checks(), probes);
  }

  const DEFAULT_DEGRADED := 50
  const DEFAULT_UNHEALTHY := 255
  const DEFAULT_RECOVERY_CONFIRM := 3
  const DEFAULT_NOTIFY_CONFIRM := 3
  const DEFAULT_WEIGHT := 25

  function WeightOrDefault(configured: int): int {
    if configured > 0 then configured else DEFAULT_WEIGHT
  }

  /** Validation orders the levels, but the degraded default is filled in
      afterwards and can overtake the unhealthy level. The gate is never off:
      an unset confirmation count becomes three. */
  lemma ValidatedLevels(cfg: Config)
    requires cfg.Valid()
    ensures var d := cfg.Demotions();
      && 0 <= d.healthy <= d.degraded
      && d.healthy < d.unhealthy == cfg.demotion.unhealthy
      && (d.degraded >= d.unhealthy <==> cfg.demotion.degraded == 0 && cfg.demotion.unhealthy <= DEFAULT_DEGRADED)
    ensures cfg.RecoveryConfirm() >= 1 && cfg.NotifyConfirm() >= 1
    ensures cfg.recoveryConfirm > 0 ==> cfg.RecoveryConfirm() == cfg.recoveryConfirm
    ensures cfg.notifyConfirm > 0 ==> cfg.NotifyConfirm() == cfg.notifyConfirm
    ensures cfg.recoveryConfirm == 0 ==> cfg.RecoveryConfirm() == 3
    ensures cfg.notifyConfirm == 0 ==> cfg.NotifyConfirm() == 3
    ensures cfg.Demotions().healthy == cfg.demotion.healthy
    ensures cfg.Demotions().degraded == if cfg.demotion.degraded > 0 then cfg.demotion.degraded else 50
    ensures cfg.Checks().NonNegativeWeights()
  {
  }
}
