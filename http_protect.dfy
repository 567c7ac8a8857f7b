/**
 * HttpProtect: the per-IP verification engine. For each request it checks the
 * block list, counts the request under the IP's counter key, refreshes that
 * counter's lifetime and classifies the count against maxRequests and
 * banLimit, promoting the IP into the block list above both.
 *
 * The engine's steps are first given as functions over the store's Db
 * (VerifyModel, Replay), with the policy proved about them; the class
 * HttpProtect then issues the same store commands one by one against a
 * RedisClientMock and is proved to end where VerifyModel says.
 */
module HttpProtect {
  import opened Wrappers
  import opened JsText
  import opened RedisMock

  // ---------------------------------------------------------------------------
  // Verdicts

  /** The three verdicts, in increasing severity (the enum's values 0, 1, 2). */
  datatype VerificationStatus = Safe | Limited | Banned

  datatype VerificationResponse = VerificationResponse(status: VerificationStatus, httpCode: int)

  function Ordinal(s: VerificationStatus): nat {
    match s
    case Safe => 0
    case Limited => 1
    case Banned => 2
  }

  function HttpCode(s: VerificationStatus): int {
    match s
    case Safe => 200
    case Limited => 429
    case Banned => 418
  }

  function Respond(s: VerificationStatus): VerificationResponse {
    VerificationResponse(s, HttpCode(s))
  }

  /**
   * The threshold policy: above maxRequests the request is limited, and only
   * above maxRequests AND above banLimit is it banned; both comparisons are
   * strict.
   */
  function Classify(requests: int, maxRequests: int, banLimit: int): (r: VerificationResponse)
    ensures r.httpCode == HttpCode(r.status)
    ensures r.status == Safe <==> requests <= maxRequests
    ensures r.status == Limited <==> maxRequests < requests <= banLimit
    ensures r.status == Banned <==> requests > maxRequests && requests > banLimit
  {
    if requests > maxRequests then
      if requests > banLimit then VerificationResponse(Banned, 418)
      else VerificationResponse(Limited, 429)
    else VerificationResponse(Safe, 200)
  }

  function Max(a: int, b: int): int {
    if a < b then b else a
  }

  function Min(a: int, b: int): int {
    if a < b then a else b
  }

  /** More requests never give a milder verdict. */
  lemma ClassifyMonotone(r1: int, r2: int, maxRequests: int, banLimit: int)
    requires r1 <= r2
    ensures Ordinal(Classify(r1, maxRequests, banLimit).status) <= Ordinal(Classify(r2, maxRequests, banLimit).status)
  {
  }

  /**
   * The boundaries: a count equal to a threshold keeps the milder verdict,
   * one more gives the harsher; with banLimit below maxRequests a count
   * between the two is still safe, since the ban test sits inside the limit test.
   */
  lemma ClassifyBoundaries(maxRequests: int, banLimit: int)
    ensures Classify(maxRequests, maxRequests, banLimit).status == Safe
    ensures maxRequests < banLimit ==> Classify(maxRequests + 1, maxRequests, banLimit).status == Limited
    ensures maxRequests < banLimit ==> Classify(banLimit, maxRequests, banLimit).status == Limited
    ensures Classify(Max(maxRequests, banLimit) + 1, maxRequests, banLimit).status == Banned
    ensures forall n | banLimit < n <= maxRequests :: Classify(n, maxRequests, banLimit).status == Safe
  {
  }

  // ---------------------------------------------------------------------------
  // Configuration and keys

  const DefaultPrefix := "imq:http-protect"
  const DefaultMaxRequests := 200
  const DefaultTtl := 10
  const DefaultBanLimit := 1000

  /** The constructor's options (the store handle and connection options are not among them here). */
  datatype HttpProtectOptions = HttpProtectOptions(
    redisPrefix: Option<string>,
    ttl: Option<int>,
    maxRequests: Option<int>,
    banLimit: Option<int>)

  const NoOptions := HttpProtectOptions(None, None, None, None)

  /**
   * HTTP_PROTECT_MAX_REQUESTS, HTTP_PROTECT_TTL and HTTP_PROTECT_BAN_LIMIT as
   * numbers; None when the variable is unset or empty.
   */
  datatype Environment = Environment(maxRequests: Option<int>, ttl: Option<int>, banLimit: Option<int>)

  const NoEnvironment := Environment(None, None, None)

  datatype Config = Config(prefix: string, ttl: int, maxRequests: int, banLimit: int)

  /** option || +(env || default): a missing or zero option falls through. */
  function Setting(option: Option<int>, env: Option<int>, default: int): int {
    if option.Some? && option.value != 0 then option.value else env.GetOr(default)
  }

  function ResolveConfig(options: HttpProtectOptions, env: Environment): Config {
    Config(
      if options.redisPrefix.Some? && options.redisPrefix.value != "" then options.redisPrefix.value else DefaultPrefix,
      Setting(options.ttl, env.ttl, DefaultTtl),
      Setting(options.maxRequests, env.maxRequests, DefaultMaxRequests),
      Setting(options.banLimit, env.banLimit, DefaultBanLimit))
  }

  /** Without options or environment the engine allows 200 requests per 10 seconds and bans above 1000. */
  lemma DefaultConfig()
    ensures ResolveConfig(NoOptions, NoEnvironment) == Config("imq:http-protect", 10, 200, 1000)
  {
  }

  /**
   * A non-zero option always wins; a missing or zero option gives the
   * environment's value when set and the default otherwise; so a setting is
   * zero only when the environment says zero, and an empty prefix is never used.
   */
  lemma ConfigPrecedence(options: HttpProtectOptions, env: Environment)
    ensures var c := ResolveConfig(options, env);
      && (options.maxRequests.Some? && options.maxRequests.value != 0 ==> c.maxRequests == options.maxRequests.value)
      && (options.maxRequests.None? || options.maxRequests.value == 0 ==>
            c.maxRequests == (if env.maxRequests.Some? then env.maxRequests.value else 200))
      && (options.ttl.Some? && options.ttl.value != 0 ==> c.ttl == options.ttl.value)
      && (options.ttl.None? || options.ttl.value == 0 ==> c.ttl == (if env.ttl.Some? then env.ttl.value else 10))
      && (options.banLimit.Some? && options.banLimit.value != 0 ==> c.banLimit == options.banLimit.value)
      && (options.banLimit.None? || options.banLimit.value == 0 ==>
            c.banLimit == (if env.banLimit.Some? then env.banLimit.value else 1000))
      && (c.maxRequests == 0 ==> env.maxRequests == Some(0))
      && (c.ttl == 0 ==> env.ttl == Some(0))
      && (c.banLimit == 0 ==> env.banLimit == Some(0))
      && c.prefix != ""
  {
  }

  function CounterKey(prefix: string, ip: string): string {
    prefix + ":" + ip
  }

  function BlockListKey(prefix: string): string {
    prefix + ":block-list"
  }

  /** Distinct IPs have distinct counters. */
  lemma CounterKeyInjective(prefix: string, a: string, b: string)
    ensures CounterKey(prefix, a) == CounterKey(prefix, b) <==> a == b
  {
    if CounterKey(prefix, a) == CounterKey(prefix, b) {
      assert a == CounterKey(prefix, a)[|prefix| + 1..];
      assert b == CounterKey(prefix, b)[|prefix| + 1..];
    }
  }

  /** The only IP whose counter key is the block list's key is the text "block-list". */
  lemma CounterKeyMeetsBlockList(prefix: string, ip: string)
    ensures CounterKey(prefix, ip) == BlockListKey(prefix) <==> ip == "block-list"
  {
    if CounterKey(prefix, ip) == BlockListKey(prefix) {
      assert ip == CounterKey(prefix, ip)[|prefix| + 1..];
      assert "block-list" == BlockListKey(prefix)[|prefix| + 1..];
    }
  }

  /** Characters of an IPv4 or IPv6 address: hex digits, dots and colons. */
  predicate IsAddressChar(c: char) {
    IsDigit(c) || 'a' <= c <= 'f' || 'A' <= c <= 'F' || c == '.' || c == ':'
  }

  /**
   * Under the store double setnx never writes a counter: an address's counter
   * key cannot end in ":watch:lock", so every count comes from incr.
   */
  lemma CounterNeverSetNx(db: Db, prefix: string, ip: string)
    requires forall i | 0 <= i < |ip| :: IsAddressChar(ip[i])
    ensures SetNxReply(db, CounterKey(prefix, ip), Int(1)) == Reply(db, 0)
  {
    var key := CounterKey(prefix, ip);
    if ip == [] {
      assert key[|key| - 1] == ':';
    } else {
      assert key[|key| - 1] == ip[|ip| - 1];
    }
    SetNxFailsOffLocks(db, key, Int(1));
  }

  // ---------------------------------------------------------------------------
  // verify, as a function of the store's state

  datatype Outcome = Outcome(db: Db, response: VerificationResponse)

  /** setnx(key, 1), and when that writes nothing, incr(key) || 1: the count verify goes on with. */
  function CountRequest(db: Db, key: string): Reply<int> {
    var setnx := SetNxReply(db, key, Int(1));
    if setnx.value != 0 then Reply(setnx.db, 1)
    else
      var incr := IncrReply(setnx.db, key);
      Reply(incr.db, if incr.value != 0 then incr.value else 1)
  }

  /** The classification of the count, adding the IP to the block list when it is banned. */
  function Judge(cfg: Config, db: Db, ip: string, requests: int): Outcome {
    if requests > cfg.maxRequests then
      if requests > cfg.banLimit then
        Outcome(SAddReply(db, BlockListKey(cfg.prefix), [ip]).db, VerificationResponse(Banned, 418))
      else Outcome(db, VerificationResponse(Limited, 429))
    else Outcome(db, VerificationResponse(Safe, 200))
  }

  /**
   * verify for an already resolved IP at time now: the block-list check, then
   * the count, then expire on the counter, then the classification with
   * promotion into the block list.
   */
  function VerifyModel(cfg: Config, db: Db, ip: string, now: int): Outcome {
    var key := CounterKey(cfg.prefix, ip);
    if SIsMemberReply(db, BlockListKey(cfg.prefix), ip) != 0 then Outcome(db, VerificationResponse(Banned, 418))
    else
      var counted := CountRequest(db, key);
      Judge(cfg, ExpireReply(counted.db, key, cfg.ttl, now).db, ip, counted.value)
  }

  /** The count verify sees for key: one more than the stored count (parseInt || 0), 1 when absent, and 1 for a bump to 0. */
  function NextRequests(db: Db, key: string): int {
    var n := IncrValue(db, key);
    if n != 0 then n else 1
  }

  /** A banned IP gets BANNED/418 and the store is left exactly as it was. */
  lemma BannedShortCircuit(cfg: Config, db: Db, ip: string, now: int)
    requires ip in Members(db, BlockListKey(cfg.prefix))
    ensures VerifyModel(cfg, db, ip, now) == Outcome(db, Respond(Banned))
  {
  }

  /** Whether setnx writes the counter or incr bumps it, the counter ends at incr's value and the count is NextRequests. */
  lemma CountRequestStep(db: Db, key: string)
    ensures var c := CountRequest(db, key);
      c.db == db.(keys := db.keys[key := Int(IncrValue(db, key))]) && c.value == NextRequests(db, key)
  {
    if SetNxReply(db, key, Int(1)).value != 0 {
      assert key !in db.keys;
    }
  }

  /** Judge answers Classify's verdict and touches only the block list, which gains the IP on a ban. */
  lemma JudgeStep(cfg: Config, db: Db, ip: string, requests: int)
    ensures var o := Judge(cfg, db, ip, requests);
      var blockList := BlockListKey(cfg.prefix);
      && o.response == Classify(requests, cfg.maxRequests, cfg.banLimit)
      && o.db == (if o.response.status == Banned then db.(sets := db.sets[blockList := AddAll(Members(db, blockList), [ip])])
                  else db)
  {
  }

  /**
   * For an IP not in the block list, whether setnx succeeds or incr runs,
   * verify stores one more than the old count under the counter key, records
   * the deadline now + ttl seconds, classifies that count, and changes the
   * block list only by adding the IP when the count is above both thresholds.
   */
  lemma CountingStep(cfg: Config, db: Db, ip: string, now: int)
    requires ip !in Members(db, BlockListKey(cfg.prefix))
    ensures var key := CounterKey(cfg.prefix, ip);
      var blockList := BlockListKey(cfg.prefix);
      var o := VerifyModel(cfg, db, ip, now);
      var requests := NextRequests(db, key);
      && o.db.keys == db.keys[key := Int(IncrValue(db, key))]
      && o.db.expirations == db.expirations[key := now + cfg.ttl * 1000]
      && o.db.queues == db.queues
      && o.response == Classify(requests, cfg.maxRequests, cfg.banLimit)
      && o.db.sets == (if o.response.status == Banned then db.sets[blockList := AddAll(Members(db, blockList), [ip])]
                       else db.sets)
  {
    var key := CounterKey(cfg.prefix, ip);
    var counted := CountRequest(db, key);
    CountRequestStep(db, key);
    var refreshed := ExpireReply(counted.db, key, cfg.ttl, now).db;
    assert refreshed == counted.db.(expirations := db.expirations[key := now + cfg.ttl * 1000]);
    JudgeStep(cfg, refreshed, ip, counted.value);
    assert VerifyModel(cfg, db, ip, now) == Judge(cfg, refreshed, ip, counted.value);
  }

  /**
   * verify never removes anything from any set: every set after it starts
   * with the members it had before, and the block list gains at most the IP.
   * After verify the IP is in the block list exactly when it was before or
   * the count went above both thresholds.
   */
  lemma VerifyOnlyAdds(cfg: Config, db: Db, ip: string, now: int, key: string)
    requires SetsDistinct(db)
    ensures var o := VerifyModel(cfg, db, ip, now);
      var blockList := BlockListKey(cfg.prefix);
      && Members(db, key) <= Members(o.db, key)
      && (forall x | x in Members(o.db, blockList) :: x in Members(db, blockList) || x == ip)
      && (ip in Members(o.db, blockList) <==> ip in Members(db, blockList) || o.response.status == Banned)
      && SetsDistinct(o.db)
  {
    var blockList := BlockListKey(cfg.prefix);
    var o := VerifyModel(cfg, db, ip, now);
    if ip !in Members(db, blockList) {
      CountingStep(cfg, db, ip, now);
      if o.response.status == Banned {
        AddToBlockList(db, o.db, blockList, ip, key);
      } else {
        assert o.db.sets == db.sets;
      }
    } else {
      assert o.db == db;
    }
  }

  /** Adding one IP to the block list keeps every set's members and the sets duplicate-free, and brings in only that IP. */
  lemma AddToBlockList(db: Db, after: Db, blockList: string, ip: string, key: string)
    requires SetsDistinct(db)
    requires after.sets == db.sets[blockList := AddAll(Members(db, blockList), [ip])]
    ensures Members(db, key) <= Members(after, key)
    ensures forall x | x in Members(after, blockList) :: x in Members(db, blockList) || x == ip
    ensures ip in Members(after, blockList)
    ensures SetsDistinct(after)
  {
    var added := AddAll(Members(db, blockList), [ip]);
    AddAllGrows(Members(db, blockList), [ip]);
    AddAllKeepsDistinct(Members(db, blockList), [ip]);
    assert Members(after, blockList) == added;
  }

  /** verify for one IP does not touch another IP's counter or block-list membership. */
  lemma VerifyIsolated(cfg: Config, db: Db, a: string, b: string, now: int)
    requires a != b
    ensures var o := VerifyModel(cfg, db, a, now);
      var other := CounterKey(cfg.prefix, b);
      && (other in o.db.keys <==> other in db.keys)
      && (other in db.keys ==> o.db.keys[other] == db.keys[other])
      && (b in Members(o.db, BlockListKey(cfg.prefix)) <==> b in Members(db, BlockListKey(cfg.prefix)))
  {
    CounterKeyInjective(cfg.prefix, a, b);
    var blockList := BlockListKey(cfg.prefix);
    if a !in Members(db, blockList) {
      CountingStep(cfg, db, a, now);
      AddAllGrows(Members(db, blockList), [a]);
    }
  }

  // ---------------------------------------------------------------------------
  // Consecutive calls

  /** The outcome of consecutive verify calls for one IP at the given times: the final store and the last response. */
  function Replay(cfg: Config, db: Db, ip: string, times: seq<int>): Outcome
    requires times != []
    decreases |times|
  {
    var first := VerifyModel(cfg, db, ip, times[0]);
    if |times| == 1 then first else Replay(cfg, first.db, ip, times[1..])
  }

  /** The count at which consecutive calls first ban: the least positive count above both thresholds. */
  function BanPoint(cfg: Config): int {
    Max(Max(cfg.maxRequests, cfg.banLimit), 0) + 1
  }

  /** The counter key holds Int(c), or is absent when c is 0. */
  predicate CounterIs(db: Db, key: string, c: nat) {
    if c == 0 then key !in db.keys else key in db.keys && db.keys[key] == Int(c)
  }

  lemma VerifyFromCount(cfg: Config, db: Db, ip: string, now: int, c: nat)
    requires ip !in Members(db, BlockListKey(cfg.prefix))
    requires CounterIs(db, CounterKey(cfg.prefix, ip), c)
    ensures var o := VerifyModel(cfg, db, ip, now);
      && CounterIs(o.db, CounterKey(cfg.prefix, ip), c + 1)
      && o.response == Classify(c + 1, cfg.maxRequests, cfg.banLimit)
      && (ip in Members(o.db, BlockListKey(cfg.prefix)) <==> c + 1 >= BanPoint(cfg))
  {
    var key := CounterKey(cfg.prefix, ip);
    var blockList := BlockListKey(cfg.prefix);
    CountingStep(cfg, db, ip, now);
    if c > 0 {
      NumberOrZeroOfInt(c);
    }
    assert IncrValue(db, key) == c + 1;
    AddAllGrows(Members(db, blockList), [ip]);
  }

  /** Once banned, any further calls answer BANNED and leave the store as it was. */
  lemma {:induction false} ReplayBanned(cfg: Config, db: Db, ip: string, times: seq<int>)
    requires times != []
    requires ip in Members(db, BlockListKey(cfg.prefix))
    ensures Replay(cfg, db, ip, times) == Outcome(db, Respond(Banned))
    decreases |times|
  {
    BannedShortCircuit(cfg, db, ip, times[0]);
    if |times| > 1 {
      ReplayBanned(cfg, db, ip, times[1..]);
    }
  }

  /**
   * Where n calls in all (counting any before) leave an IP: the counter stops
   * at the ban point, the IP is listed from the ban point on, and the last
   * call answers Classify(n) up to it and BANNED after.
   */
  predicate CountedTo(cfg: Config, o: Outcome, ip: string, n: nat) {
    && CounterIs(o.db, CounterKey(cfg.prefix, ip), Min(n, BanPoint(cfg)))
    && (ip in Members(o.db, BlockListKey(cfg.prefix)) <==> n >= BanPoint(cfg))
    && o.response == (if n <= BanPoint(cfg) then Classify(n, cfg.maxRequests, cfg.banLimit) else Respond(Banned))
  }

  /** Counting on from c below the ban point, consecutive calls reach CountedTo(c + the number of calls). */
  lemma {:induction false} ReplayCounts(cfg: Config, db: Db, ip: string, times: seq<int>, c: nat)
    requires times != []
    requires c < BanPoint(cfg)
    requires CounterIs(db, CounterKey(cfg.prefix, ip), c)
    requires ip !in Members(db, BlockListKey(cfg.prefix))
    ensures CountedTo(cfg, Replay(cfg, db, ip, times), ip, c + |times|)
    decreases |times|
  {
    var first := VerifyModel(cfg, db, ip, times[0]);
    VerifyFromCount(cfg, db, ip, times[0], c);
    if |times| == 1 {
      ReplayOnce(cfg, db, ip, times);
    } else {
      var rest := times[1..];
      ReplayUnfold(cfg, db, ip, times);
      if c + 1 == BanPoint(cfg) {
        ReplayBanned(cfg, first.db, ip, rest);
      } else {
        ReplayCounts(cfg, first.db, ip, rest, c + 1);
      }
    }
  }

  lemma ReplayOnce(cfg: Config, db: Db, ip: string, times: seq<int>)
    requires |times| == 1
    ensures Replay(cfg, db, ip, times) == VerifyModel(cfg, db, ip, times[0])
  {
  }

  lemma ReplayUnfold(cfg: Config, db: Db, ip: string, times: seq<int>)
    requires |times| > 1
    ensures Replay(cfg, db, ip, times) == Replay(cfg, VerifyModel(cfg, db, ip, times[0]).db, ip, times[1..])
  {
  }

  /**
   * From a fresh IP (no counter, not banned), the N-th consecutive call sees
   * N requests: it is classified as N, and the counter holds N, until the
   * ban point.
   */
  lemma FreshIpCounts(cfg: Config, db: Db, ip: string, times: seq<int>)
    requires times != []
    requires CounterKey(cfg.prefix, ip) !in db.keys
    requires ip !in Members(db, BlockListKey(cfg.prefix))
    ensures var o := Replay(cfg, db, ip, times);
      |times| <= BanPoint(cfg) ==>
        && CounterIs(o.db, CounterKey(cfg.prefix, ip), |times|)
        && o.response == Classify(|times|, cfg.maxRequests, cfg.banLimit)
        && (ip in Members(o.db, BlockListKey(cfg.prefix)) <==> |times| == BanPoint(cfg))
  {
    ReplayCounts(cfg, db, ip, times, 0);
  }

  /** The first call from a fresh IP counts 1 and is SAFE unless maxRequests is below 1. */
  lemma ColdStart(cfg: Config, db: Db, ip: string, now: int)
    requires CounterKey(cfg.prefix, ip) !in db.keys
    requires ip !in Members(db, BlockListKey(cfg.prefix))
    ensures var o := VerifyModel(cfg, db, ip, now);
      && CounterIs(o.db, CounterKey(cfg.prefix, ip), 1)
      && (cfg.maxRequests >= 1 ==> o.response == Respond(Safe))
  {
    VerifyFromCount(cfg, db, ip, now, 0);
  }

  // ---------------------------------------------------------------------------
  // Expiry of the counter

  /**
   * A ban outlives the counter: when the counter's timer has deleted it,
   * verify still answers BANNED without counting (the IP "block-list" is the
   * exception, whose counter key is the block list's own key).
   */
  lemma BanSurvivesExpiry(cfg: Config, db: Db, ip: string, now: int)
    requires ip in Members(db, BlockListKey(cfg.prefix))
    requires ip != "block-list"
    ensures var expired := EvictDb(db, CounterKey(cfg.prefix, ip));
      VerifyModel(cfg, expired, ip, now) == Outcome(expired, Respond(Banned))
  {
    CounterKeyMeetsBlockList(cfg.prefix, ip);
  }

  /** For an IP not banned, expiry of the counter restarts the window: the next call counts 1. */
  lemma ExpiryRestartsWindow(cfg: Config, db: Db, ip: string, now: int)
    requires ip !in Members(db, BlockListKey(cfg.prefix))
    ensures var o := VerifyModel(cfg, EvictDb(db, CounterKey(cfg.prefix, ip)), ip, now);
      && CounterIs(o.db, CounterKey(cfg.prefix, ip), 1)
      && o.response == Classify(1, cfg.maxRequests, cfg.banLimit)
  {
    var expired := EvictDb(db, CounterKey(cfg.prefix, ip));
    assert ip !in Members(expired, BlockListKey(cfg.prefix));
    VerifyFromCount(cfg, expired, ip, now, 0);
  }

  // ---------------------------------------------------------------------------
  // isLimited, bannedNetworks, isBanned

  /** +(get(key) || 0): null and the empty text read as 0; None stands for NaN. */
  function ReadRequests(reply: Option<string>): Option<int> {
    match reply
    case None => Some(0)
    case Some(s) => if s == "" then Some(0) else ToNumber(s)
  }

  /** isLimited reads a stored count back exactly, and an absent counter as 0. */
  lemma ReadRequestsOfCounter(db: Db, key: string)
    ensures key !in db.keys ==> ReadRequests(GetReply(db, key)) == Some(0)
    ensures key in db.keys && db.keys[key].Int? ==> ReadRequests(GetReply(db, key)) == Some(db.keys[key].n)
  {
    if key in db.keys && db.keys[key].Int? {
      var n := db.keys[key].n;
      ToNumberOfIntToString(n);
      IntToStringShape(n);
    }
  }

  /** bannedNetworks: each block-list member as a /32 network, in the same order. */
  function ToNetworks(ips: seq<string>): (networks: seq<string>)
    ensures |networks| == |ips|
    ensures forall i | 0 <= i < |ips| :: networks[i] == ips[i] + "/32"
  {
    if ips == [] then [] else [ips[0] + "/32"] + ToNetworks(ips[1..])
  }

  lemma SuffixCancels(a: string, b: string)
    requires a + "/32" == b + "/32"
    ensures a == b
  {
    assert a == (a + "/32")[..|a|];
    assert b == (b + "/32")[..|b|];
  }

  /** ip's /32 network is listed exactly when ip is a member; distinct members give distinct networks. */
  lemma NetworksMembership(ips: seq<string>, ip: string)
    ensures ip in ips <==> ip + "/32" in ToNetworks(ips)
    ensures Distinct(ips) ==> Distinct(ToNetworks(ips))
  {
    var networks := ToNetworks(ips);
    if ip + "/32" in networks {
      var i :| 0 <= i < |networks| && networks[i] == ip + "/32";
      SuffixCancels(ip, ips[i]);
    }
    if Distinct(ips) {
      forall i, j | 0 <= i < j < |networks|
        ensures networks[i] != networks[j]
      {
        if networks[i] == networks[j] {
          SuffixCancels(ips[i], ips[j]);
        }
      }
    }
  }

  /** What the middleware does with a verdict: SAFE goes on to the next handler, otherwise the code is sent. */
  datatype Reaction = Next | Reject(code: int, text: string)

  function ReasonPhrase(code: int): string {
    if code == 418 then "I'm a teapot"
    else if code == 429 then "Too Many Requests"
    else "undefined"
  }

  /** textMiddleware: the rejection body is the code followed by its reason phrase. */
  function TextReaction(r: VerificationResponse): Reaction {
    if r.status == Safe then Next else Reject(r.httpCode, IntToString(r.httpCode) + " " + ReasonPhrase(r.httpCode))
  }

  lemma Digits429()
    ensures IntToString(429) == "429"
  {
    assert DigitChar(4) == '4' && DigitChar(2) == '2' && DigitChar(9) == '9';
    assert NatToString(42) == NatToString(4) + [DigitChar(2)];
    assert NatToString(429) == NatToString(42) + [DigitChar(9)];
  }

  lemma Digits418()
    ensures IntToString(418) == "418"
  {
    assert DigitChar(4) == '4' && DigitChar(1) == '1' && DigitChar(8) == '8';
    assert NatToString(41) == NatToString(4) + [DigitChar(1)];
    assert NatToString(418) == NatToString(41) + [DigitChar(8)];
  }

  /** A rejection's body is the code's decimal text, a space and the reason phrase. */
  lemma RejectBody(r: VerificationResponse, digits: string, phrase: string)
    requires r.status != Safe
    requires IntToString(r.httpCode) == digits && ReasonPhrase(r.httpCode) == phrase
    ensures TextReaction(r) == Reject(r.httpCode, digits + " " + phrase)
  {
  }

  lemma TooManyRequestsText()
    ensures TextReaction(Respond(Limited)) == Reject(429, "429 Too Many Requests")
  {
    Digits429();
    RejectBody(Respond(Limited), "429", "Too Many Requests");
    assert "429" + " " + "Too Many Requests" == "429 Too Many Requests";
  }

  lemma TeapotText()
    ensures TextReaction(Respond(Banned)) == Reject(418, "418 I'm a teapot")
  {
    Digits418();
    RejectBody(Respond(Banned), "418", "I'm a teapot");
    assert "418" + " " + "I'm a teapot" == "418 I'm a teapot";
  }

  lemma ReactionsOfVerdicts(requests: int, maxRequests: int, banLimit: int)
    ensures var r := Classify(requests, maxRequests, banLimit);
      && (r.status == Safe <==> TextReaction(r) == Next)
      && (r.status == Limited ==> TextReaction(r) == Reject(429, "429 Too Many Requests"))
      && (r.status == Banned ==> TextReaction(r) == Reject(418, "418 I'm a teapot"))
  {
    var r := Classify(requests, maxRequests, banLimit);
    assert r == Respond(r.status);
    TooManyRequestsText();
    TeapotText();
  }

  // ---------------------------------------------------------------------------
  // The scenarios of the engine's test, under the default configuration

  /**
   * Consecutive calls from a fresh IP under the defaults: up to 200 are SAFE;
   * from 201 to 1000 the last is LIMITED, the counter reads back as the number
   * of calls (so isLimited holds) and the IP is not listed; from 1001 on the
   * last is BANNED and the IP is listed as a /32 network.
   */
  lemma DefaultScenarios(db: Db, ip: string, times: seq<int>)
    requires times != []
    requires CounterKey(DefaultPrefix, ip) !in db.keys
    requires ip !in Members(db, BlockListKey(DefaultPrefix))
    ensures var o := Replay(ResolveConfig(NoOptions, NoEnvironment), db, ip, times);
      var networks := ToNetworks(Members(o.db, BlockListKey(DefaultPrefix)));
      && (|times| <= 200 ==> o.response == Respond(Safe))
      && (200 < |times| <= 1000 ==>
            && o.response == Respond(Limited)
            && ReadRequests(GetReply(o.db, CounterKey(DefaultPrefix, ip))) == Some(|times|)
            && ip + "/32" !in networks)
      && (|times| >= 1001 ==> o.response == Respond(Banned) && ip + "/32" in networks)
  {
    var cfg := ResolveConfig(NoOptions, NoEnvironment);
    DefaultConfig();
    var o := Replay(cfg, db, ip, times);
    ReplayCounts(cfg, db, ip, times, 0);
    ReadRequestsOfCounter(o.db, CounterKey(DefaultPrefix, ip));
    NetworksMembership(Members(o.db, BlockListKey(DefaultPrefix)), ip);
  }

  // ---------------------------------------------------------------------------
  // The engine object

  datatype ProtectError = NotConnected

  class HttpProtect {
    /** The store handle; absent after destroy. */
    var redis: RedisClientMock?
    const prefix: string
    const ttl: int
    const maxRequests: int
    const banLimit: int
    const blockListKey: string

    function Settings(): Config {
      Config(prefix, ttl, maxRequests, banLimit)
    }

    /** The block list lives under the prefix, and the store keeps its sets free of duplicates. */
    ghost predicate Valid()
      reads this, redis
    {
      && blockListKey == BlockListKey(prefix)
      && (redis != null ==> redis.Valid())
    }

    /** The options win when truthy, then the environment, then the defaults; the handle is the given store. */
    constructor (store: RedisClientMock, options: HttpProtectOptions, env: Environment)
      requires store.Valid()
      ensures Valid() && redis == store
      ensures Settings() == ResolveConfig(options, env)
      ensures blockListKey == BlockListKey(prefix)
    {
      redis := store;
      var cfg := ResolveConfig(options, env);
      prefix := cfg.prefix;
      maxRequests := cfg.maxRequests;
      ttl := cfg.ttl;
      banLimit := cfg.banLimit;
      blockListKey := BlockListKey(cfg.prefix);
    }

    /**
     * verify for the resolved client IP (None when it could not be resolved,
     * which stands for ''); fails before touching the store without a handle.
     */
    method Verify(clientIp: Option<string>, now: int) returns (r: Result<VerificationResponse, ProtectError>)
      requires Valid()
      modifies redis
      ensures Valid() && redis == old(redis)
      ensures old(redis) == null ==> r == Failure(NotConnected)
      ensures old(redis) != null ==>
        var o := VerifyModel(Settings(), old(redis.View()), clientIp.GetOr(""), now);
        r == Success(o.response) && redis.View() == o.db
    {
      if redis == null {
        return Failure(NotConnected);
      }
      var store := redis;
      ghost var db := store.View();
      var ip := match clientIp case Some(s) => s case None => "";
      var key := CounterKey(prefix, ip);
      var member := store.SIsMember(blockListKey, ip);
      if member != 0 {
        return Success(VerificationResponse(Banned, 418));
      }
      ghost var counted := CountRequest(db, key);
      var requests := 1;
      var created := store.SetNx(key, Int(1));
      if created == 0 {
        assert store.View() == db;
        var n := store.Incr(key);
        requests := if n != 0 then n else 1;
      }
      assert store.View() == counted.db && requests == counted.value;
      var refreshed := store.Expire(key, ttl, now);
      assert VerifyModel(Settings(), db, ip, now) == Judge(Settings(), store.View(), ip, requests);
      if requests > maxRequests {
        if requests > banLimit {
          var added := store.SAdd(blockListKey, [ip]);
          return Success(VerificationResponse(Banned, 418));
        }
        return Success(VerificationResponse(Limited, 429));
      }
      return Success(VerificationResponse(Safe, 200));
    }

    /** isLimited: the stored count read as a number is above maxRequests; no handle reads as 0. */
    method IsLimited(ip: string) returns (limited: bool)
      ensures var reply := if redis == null then None else GetReply(redis.View(), CounterKey(prefix, ip));
        limited <==> ReadRequests(reply).Some? && ReadRequests(reply).value > maxRequests
      ensures redis != null && CounterKey(prefix, ip) in redis.keys && redis.keys[CounterKey(prefix, ip)].Int? ==>
        (limited <==> redis.keys[CounterKey(prefix, ip)].n > maxRequests)
      ensures (redis == null || CounterKey(prefix, ip) !in redis.keys) ==> (limited <==> 0 > maxRequests)
    {
      var key := CounterKey(prefix, ip);
      var reply: Option<string> := None;
      if redis != null {
        reply := redis.Get(key);
        ReadRequestsOfCounter(redis.View(), key);
      }
      var requests := ReadRequests(reply);
      limited := requests.Some? && requests.value > maxRequests;
    }

    /** bannedNetworks: one /32 network per block-list member; none without a handle. */
    method BannedNetworks() returns (networks: seq<string>)
      ensures networks == ToNetworks(if redis == null then [] else Members(redis.View(), blockListKey))
      ensures redis != null ==> |networks| == |Members(redis.View(), blockListKey)|
    {
      var ips: seq<string> := [];
      if redis != null {
        ips := redis.SMembers(blockListKey);
      }
      networks := ToNetworks(ips);
    }

    /** isBanned, with the network match taken as equality with a /32 network. */
    method IsBanned(ip: string) returns (banned: bool)
      ensures banned <==> redis != null && ip in Members(redis.View(), blockListKey)
    {
      var networks := BannedNetworks();
      banned := ip + "/32" in networks;
      NetworksMembership(if redis == null then [] else Members(redis.View(), blockListKey), ip);
    }

    /** destroy drops the handle; verify then fails. */
    method Destroy()
      requires Valid()
      modifies this
      ensures Valid() && redis == null
    {
      redis := null;
    }
  }
}
