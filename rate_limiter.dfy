/** The rate limiter bank of `middleware/rateLimiter.js`: four separately
    configured fixed-window limiters, each counting requests per client key.
    Each key has its own fixed window, opened by the key's first request and
    lasting `windowMs`; each request adds one to the count and is refused once
    the count exceeds `max`. */
module RateLimit {
  import opened Common

  /** What a limiter reads of a request: `req.ip` and the `User-Agent` header. */
  datatype Client = Client(ip: string, userAgent: Option<string>)

  /** How the counting key is derived. */
  datatype KeyRule = ByIp | ByIpAndAgent

  /** When the limiter is bypassed. */
  datatype SkipRule = NeverSkip | SkipInDevelopment

  /** The `message` body of the 429 response. */
  datatype LimitMessage = LimitMessage(error: string, message: string, retryAfter: string)

  datatype Config = Config(windowMs: nat, max: nat, key: KeyRule, skip: SkipRule, message: LimitMessage)

  const AuthConfig := Config(15 * 60 * 1000, 5, ByIpAndAgent, NeverSkip,
    LimitMessage("Too many authentication attempts", "Please try again after 15 minutes", "15 minutes"))
  const GeneralConfig := Config(15 * 60 * 1000, 100, ByIp, SkipInDevelopment,
    LimitMessage("Too many requests", "Please slow down and try again later", "15 minutes"))
  const PasswordResetConfig := Config(60 * 60 * 1000, 3, ByIp, NeverSkip,
    LimitMessage("Too many password reset attempts", "Please try again after 1 hour", "1 hour"))
  const RegistrationConfig := Config(60 * 60 * 1000, 3, ByIp, NeverSkip,
    LimitMessage("Too many registration attempts", "Please try again after 1 hour", "1 hour"))

  /** A template literal renders a missing header as `undefined`. */
  function AgentText(agent: Option<string>): string
  {
    match agent
    case None => "undefined"
    case Some(a) => a
  }

  /** `keyGenerator`: `req.ip` by default, `${req.ip}-${req.get('User-Agent')}`
      for the authentication limiter. */
  function KeyOf(cfg: Config, client: Client): string
  {
    match cfg.key
    case ByIp => client.ip
    case ByIpAndAgent => client.ip + "-" + AgentText(client.userAgent)
  }

  /** `skip`: `process.env.NODE_ENV === 'development'` for the general limiter. */
  predicate Skips(cfg: Config, nodeEnv: Option<string>)
  {
    cfg.skip == SkipInDevelopment && nodeEnv == Some("development")
  }

  /** The authentication key keeps IP and agent apart: for addresses without a
      `-` (IPv4 and IPv6 use none), two clients share a counter only when both
      their IP and their agent text agree. */
  lemma AuthKeyInjective(c1: Client, c2: Client)
    requires '-' !in c1.ip && '-' !in c2.ip
    requires KeyOf(AuthConfig, c1) == KeyOf(AuthConfig, c2)
    ensures c1.ip == c2.ip && AgentText(c1.userAgent) == AgentText(c2.userAgent)
  {
    var k := KeyOf(AuthConfig, c1);
    var n1, n2 := |c1.ip|, |c2.ip|;
    assert k[n1] == '-' && k[n2] == '-';
    assert forall j :: 0 <= j < n1 ==> k[j] == c1.ip[j] != '-';
    assert forall j :: 0 <= j < n2 ==> k[j] == c2.ip[j] != '-';
    assert c1.ip == k[..n1] == c2.ip;
    assert AgentText(c1.userAgent) == k[n1 + 1..] == AgentText(c2.userAgent);
  }

  /** One key's counter: when its window opened and how many requests it saw. */
  datatype Window = Window(start: nat, count: nat)

  datatype Decision = Skipped | Allowed | Limited(message: LimitMessage)

  datatype StepResult = StepResult(decision: Decision, hits: map<string, Window>)

  /** The window a request at `now` counts in: the key's open window, or a
      new one when the key has none or its window has elapsed. */
  function CurrentWindow(cfg: Config, hits: map<string, Window>, key: string, now: nat): Window
  {
    if key in hits && now < hits[key].start + cfg.windowMs then hits[key] else Window(now, 0)
  }

  /** One request through one limiter. */
  function Step(cfg: Config, hits: map<string, Window>, now: nat, client: Client, nodeEnv: Option<string>): (r: StepResult)
    ensures Skips(cfg, nodeEnv) ==> r == StepResult(Skipped, hits)
    ensures !Skips(cfg, nodeEnv) ==>
      var key := KeyOf(cfg, client);
      key in r.hits && r.hits.Keys == hits.Keys + {key} &&
      (forall k :: k in hits && k != key ==> r.hits[k] == hits[k]) &&
      (r.decision == Allowed <==> r.hits[key].count <= cfg.max) &&
      (r.decision != Allowed ==> r.decision == Limited(cfg.message))
  {
    if Skips(cfg, nodeEnv) then StepResult(Skipped, hits)
    else
      var key := KeyOf(cfg, client);
      var w := CurrentWindow(cfg, hits, key, now);
      var w' := w.(count := w.count + 1);
      StepResult(if w'.count <= cfg.max then Allowed else Limited(cfg.message), hits[key := w'])
  }

  /** Within an open window that has already seen `max` requests, the next
      request is refused with the limiter's message. */
  lemma RefusedWhenFull(cfg: Config, hits: map<string, Window>, now: nat, client: Client, nodeEnv: Option<string>)
    requires !Skips(cfg, nodeEnv)
    requires KeyOf(cfg, client) in hits
    requires now < hits[KeyOf(cfg, client)].start + cfg.windowMs
    requires hits[KeyOf(cfg, client)].count >= cfg.max
    ensures Step(cfg, hits, now, client, nodeEnv).decision == Limited(cfg.message)
  {
  }

  /** The first request of a key never seen, or of a key whose window has
      elapsed, opens a new window at its own time with a count of one, and is
      admitted unless `max` is zero. */
  lemma OpensNewWindow(cfg: Config, hits: map<string, Window>, now: nat, client: Client, nodeEnv: Option<string>)
    requires !Skips(cfg, nodeEnv)
    requires KeyOf(cfg, client) !in hits || now >= hits[KeyOf(cfg, client)].start + cfg.windowMs
    ensures Step(cfg, hits, now, client, nodeEnv).hits[KeyOf(cfg, client)] == Window(now, 1)
    ensures Step(cfg, hits, now, client, nodeEnv).decision == Allowed <==> cfg.max >= 1
  {
  }

  /** A request at a given time. */
  datatype Arrival = Arrival(time: nat, client: Client)

  datatype RunResult = RunResult(decisions: seq<Decision>, hits: map<string, Window>)

  /** A sequence of requests through one limiter, in order. */
  function Run(cfg: Config, hits: map<string, Window>, arrivals: seq<Arrival>, nodeEnv: Option<string>): (r: RunResult)
    ensures |r.decisions| == |arrivals|
    decreases |arrivals|
  {
    if arrivals == [] then RunResult([], hits)
    else
      var s := Step(cfg, hits, arrivals[0].time, arrivals[0].client, nodeEnv);
      var rest := Run(cfg, s.hits, arrivals[1..], nodeEnv);
      RunResult([s.decision] + rest.decisions, rest.hits)
  }

  function CountAllowed(ds: seq<Decision>): nat
  {
    if ds == [] then 0 else (if ds[0] == Allowed then 1 else 0) + CountAllowed(ds[1..])
  }

  function Min(a: nat, b: nat): nat
  {
    if a <= b then a else b
  }

  /** Requests of one key that all fall inside that key's open window: the
      count grows by one per request, and exactly the requests that keep the
      count within `max` are admitted. */
  lemma {:induction false} WindowCount(cfg: Config, hits: map<string, Window>, arrivals: seq<Arrival>, nodeEnv: Option<string>, key: string)
    requires !Skips(cfg, nodeEnv)
    requires key in hits
    requires forall i :: 0 <= i < |arrivals| ==>
      KeyOf(cfg, arrivals[i].client) == key && arrivals[i].time < hits[key].start + cfg.windowMs
    ensures var r := Run(cfg, hits, arrivals, nodeEnv);
      key in r.hits && r.hits[key] == Window(hits[key].start, hits[key].count + |arrivals|) &&
      CountAllowed(r.decisions) == Min(hits[key].count + |arrivals|, cfg.max) - Min(hits[key].count, cfg.max)
    decreases |arrivals|
  {
    if arrivals != [] {
      var s := Step(cfg, hits, arrivals[0].time, arrivals[0].client, nodeEnv);
      assert s.hits[key] == Window(hits[key].start, hits[key].count + 1);
      WindowCount(cfg, s.hits, arrivals[1..], nodeEnv, key);
    }
  }

  /** A run of one key's requests, from a key with no open window, all within
      `windowMs` of the first, admits no more than `max`. */
  lemma SingleKeyAtMostMax(cfg: Config, hits: map<string, Window>, arrivals: seq<Arrival>, nodeEnv: Option<string>, key: string)
    requires !Skips(cfg, nodeEnv) && arrivals != []
    requires key !in hits || arrivals[0].time >= hits[key].start + cfg.windowMs
    requires forall i :: 0 <= i < |arrivals| ==>
      KeyOf(cfg, arrivals[i].client) == key && arrivals[i].time < arrivals[0].time + cfg.windowMs
    ensures CountAllowed(Run(cfg, hits, arrivals, nodeEnv).decisions) <= cfg.max
  {
    OpensNewWindow(cfg, hits, arrivals[0].time, arrivals[0].client, nodeEnv);
    var s := Step(cfg, hits, arrivals[0].time, arrivals[0].client, nodeEnv);
    WindowCount(cfg, s.hits, arrivals[1..], nodeEnv, key);
  }

  /** The requests of a run that count under `key`, in order. */
  function Only(cfg: Config, arrivals: seq<Arrival>, key: string): (r: seq<Arrival>)
    ensures |r| <= |arrivals|
    ensures forall j :: 0 <= j < |r| ==> r[j] in arrivals && KeyOf(cfg, r[j].client) == key
    decreases |arrivals|
  {
    if arrivals == [] then []
    else if KeyOf(cfg, arrivals[0].client) == key then [arrivals[0]] + Only(cfg, arrivals[1..], key)
    else Only(cfg, arrivals[1..], key)
  }

  /** How many of the requests that count under `key` a run admitted. */
  function AllowedFor(cfg: Config, arrivals: seq<Arrival>, ds: seq<Decision>, key: string): nat
    requires |ds| == |arrivals|
    decreases |arrivals|
  {
    if arrivals == [] then 0
    else (if KeyOf(cfg, arrivals[0].client) == key && ds[0] == Allowed then 1 else 0) +
         AllowedFor(cfg, arrivals[1..], ds[1..], key)
  }

  /** Two counter maps that hold the same entry, or none, for `key`. */
  predicate AgreeAt(h1: map<string, Window>, h2: map<string, Window>, key: string)
  {
    (key in h1 <==> key in h2) && (key in h1 ==> h1[key] == h2[key])
  }

  /** A key's counter and admissions do not depend on other keys' requests:
      running the whole trace gives `key` the same counter, and admits as many
      of its requests, as running only the requests that count under `key`. */
  lemma {:induction false} OtherKeysIrrelevant(cfg: Config, h1: map<string, Window>, h2: map<string, Window>,
                                               arrivals: seq<Arrival>, nodeEnv: Option<string>, key: string)
    requires AgreeAt(h1, h2, key)
    ensures var r1 := Run(cfg, h1, arrivals, nodeEnv);
      var r2 := Run(cfg, h2, Only(cfg, arrivals, key), nodeEnv);
      AgreeAt(r1.hits, r2.hits, key) && AllowedFor(cfg, arrivals, r1.decisions, key) == CountAllowed(r2.decisions)
    decreases |arrivals|
  {
    if arrivals != [] {
      var a := arrivals[0];
      var s1 := Step(cfg, h1, a.time, a.client, nodeEnv);
      var r1 := Run(cfg, h1, arrivals, nodeEnv);
      assert r1.decisions[1..] == Run(cfg, s1.hits, arrivals[1..], nodeEnv).decisions;
      if KeyOf(cfg, a.client) == key {
        var s2 := Step(cfg, h2, a.time, a.client, nodeEnv);
        assert s1.decision == s2.decision && AgreeAt(s1.hits, s2.hits, key);
        var o := Only(cfg, arrivals, key);
        assert o[0] == a && o[1..] == Only(cfg, arrivals[1..], key);
        OtherKeysIrrelevant(cfg, s1.hits, s2.hits, arrivals[1..], nodeEnv, key);
      } else {
        assert AgreeAt(s1.hits, h2, key);
        OtherKeysIrrelevant(cfg, s1.hits, h2, arrivals[1..], nodeEnv, key);
      }
    }
  }

  /** Per key, at most `max` requests are admitted within one window, whatever
      requests of other keys are interleaved: when the key has no open window
      at its first request of the run, and all its requests fall within
      `windowMs` of that first one, no more than `max` of them are admitted. */
  lemma AtMostMaxPerWindow(cfg: Config, hits: map<string, Window>, arrivals: seq<Arrival>, nodeEnv: Option<string>, key: string)
    requires !Skips(cfg, nodeEnv) && Only(cfg, arrivals, key) != []
    requires key !in hits || Only(cfg, arrivals, key)[0].time >= hits[key].start + cfg.windowMs
    requires forall i :: 0 <= i < |arrivals| && KeyOf(cfg, arrivals[i].client) == key ==>
      arrivals[i].time < Only(cfg, arrivals, key)[0].time + cfg.windowMs
    ensures AllowedFor(cfg, arrivals, Run(cfg, hits, arrivals, nodeEnv).decisions, key) <= cfg.max
  {
    OtherKeysIrrelevant(cfg, hits, hits, arrivals, nodeEnv, key);
    SingleKeyAtMostMax(cfg, hits, Only(cfg, arrivals, key), nodeEnv, key);
  }

  /** The general limiter is bypassed entirely in development: it neither
      counts nor refuses, over any run of requests. */
  lemma {:induction false} GeneralSkippedInDevelopment(hits: map<string, Window>, arrivals: seq<Arrival>)
    ensures Run(GeneralConfig, hits, arrivals, Some("development")).hits == hits
    ensures forall i :: 0 <= i < |arrivals| ==> Run(GeneralConfig, hits, arrivals, Some("development")).decisions[i] == Skipped
    decreases |arrivals|
  {
    if arrivals != [] {
      GeneralSkippedInDevelopment(hits, arrivals[1..]);
    }
  }

  /** The authentication limiter counts one IP with different user agents
      separately; the other three count by IP alone. */
  lemma AgentsCountedSeparately(ip: string, a1: Option<string>, a2: Option<string>)
    requires AgentText(a1) != AgentText(a2)
    ensures KeyOf(AuthConfig, Client(ip, a1)) != KeyOf(AuthConfig, Client(ip, a2))
    ensures KeyOf(RegistrationConfig, Client(ip, a1)) == KeyOf(RegistrationConfig, Client(ip, a2))
  {
    var k1, k2 := KeyOf(AuthConfig, Client(ip, a1)), KeyOf(AuthConfig, Client(ip, a2));
    assert k1[|ip| + 1..] == AgentText(a1);
    assert k2[|ip| + 1..] == AgentText(a2);
  }

  /** A missing `User-Agent` header shares its counter with the literal agent
      string `undefined`. */
  lemma MissingAgentSharesCounter(ip: string)
    ensures KeyOf(AuthConfig, Client(ip, None)) == KeyOf(AuthConfig, Client(ip, Some("undefined")))
  {
  }

  /** One `rateLimit(...)` instance: its configuration and its per-key counters. */
  class Limiter {
    const config: Config
    var hits: map<string, Window>

    constructor (config: Config)
      ensures this.config == config && hits == map[]
    {
      this.config := config;
      hits := map[];
    }

    /** The middleware for one request: bypass, count and admit, or count and
        refuse with status 429 and the configured message. */
    method Admit(now: nat, client: Client, nodeEnv: Option<string>) returns (d: Decision)
      modifies this
      ensures StepResult(d, hits) == Step(config, old(hits), now, client, nodeEnv)
    {
      if config.skip == SkipInDevelopment && nodeEnv == Some("development") {
        return Skipped;
      }
      var key := KeyOf(config, client);
      var w := Window(now, 0);
      if key in hits && now < hits[key].start + config.windowMs {
        w := hits[key];
      }
      w := w.(count := w.count + 1);
      hits := hits[key := w];
      if w.count > config.max {
        d := Limited(config.message);
      } else {
        d := Allowed;
      }
    }
  }

  datatype LimiterKind = AuthLimiter | GeneralLimiter | PasswordResetLimiter | RegistrationLimiter

  function ConfigOf(kind: LimiterKind): Config
  {
    match kind
    case AuthLimiter => AuthConfig
    case GeneralLimiter => GeneralConfig
    case PasswordResetLimiter => PasswordResetConfig
    case RegistrationLimiter => RegistrationConfig
  }

  /** The table of the four exported limiters: window, limit, key rule and
      skip rule. */
  lemma LimiterTable()
    ensures ConfigOf(AuthLimiter).windowMs == 900000 && ConfigOf(AuthLimiter).max == 5
    ensures ConfigOf(GeneralLimiter).windowMs == 900000 && ConfigOf(GeneralLimiter).max == 100
    ensures ConfigOf(PasswordResetLimiter).windowMs == 3600000 && ConfigOf(PasswordResetLimiter).max == 3
    ensures ConfigOf(RegistrationLimiter).windowMs == 3600000 && ConfigOf(RegistrationLimiter).max == 3
    ensures forall kind :: ConfigOf(kind).key == ByIpAndAgent <==> kind == AuthLimiter
  {
  }

  /** Only the general limiter is ever bypassed, and only when `NODE_ENV` is
      `development`. */
  lemma OnlyGeneralSkips(kind: LimiterKind, nodeEnv: Option<string>)
    ensures Skips(ConfigOf(kind), nodeEnv) <==> kind == GeneralLimiter && nodeEnv == Some("development")
  {
  }

  /** The four exported limiters, each its own instance. */
  class LimiterBank {
    const auth: Limiter
    const general: Limiter
    const passwordReset: Limiter
    const registration: Limiter

    function Get(kind: LimiterKind): Limiter
    {
      match kind
      case AuthLimiter => auth
      case GeneralLimiter => general
      case PasswordResetLimiter => passwordReset
      case RegistrationLimiter => registration
    }

    ghost predicate Valid()
    {
      (forall a, b :: a != b ==> Get(a) != Get(b)) &&
      (forall kind :: Get(kind).config == ConfigOf(kind))
    }

    constructor ()
      ensures Valid()
      ensures forall kind :: Get(kind).hits == map[] && fresh(Get(kind))
    {
      auth := new Limiter(AuthConfig);
      general := new Limiter(GeneralConfig);
      passwordReset := new Limiter(PasswordResetConfig);
      registration := new Limiter(RegistrationConfig);
    }

    /** A request through one limiter of the bank; every other limiter's
        counters are left as they were. */
    method Admit(kind: LimiterKind, now: nat, client: Client, nodeEnv: Option<string>) returns (d: Decision)
      requires Valid()
      modifies Get(kind)
      ensures StepResult(d, Get(kind).hits) == Step(ConfigOf(kind), old(Get(kind).hits), now, client, nodeEnv)
      ensures forall other :: other != kind ==> Get(other).hits == old(Get(other).hits)
    {
      d := Get(kind).Admit(now, client, nodeEnv);
    }
  }
}
