# http-protect, modelled in Dafny

The model covers the per-IP verification engine `HttpProtect` and the in-memory Redis double
`RedisClientMock` that the engine's tests run it against.

- **Verification.** `verify` resolves the client IP and answers BANNED/418 straight away when
  the IP is in the block list (the set under `<prefix>:block-list`). Otherwise it counts the
  request under `<prefix>:<ip>`: first `setnx(key, 1)`, and if that writes nothing, then
  `incr(key) || 1`. It then refreshes the counter's lifetime with `expire(key, ttl)` and
  classifies the count:
  - a count above `maxRequests` is LIMITED/429;
  - a count above `maxRequests` and also above `banLimit` is BANNED/418, and the IP is added
    to the block list;
  - anything else is SAFE/200.
- **Queries.** `isLimited` reads the counter back as a number. `bannedNetworks` lists the block
  list as `/32` networks, and `isBanned` looks an IP up in that list.
- **Other operations.** `destroy` drops the store handle. The constructor takes the prefix
  from the non-empty option, else the default `imq:http-protect`; no environment variable
  sets the prefix (src/index.ts:159). It takes each numeric setting from the truthy option
  first, then the environment variable, then the default (ttl 10 s, maxRequests 200,
  banLimit 1000).

The modules:

- `Wrappers`: `Option` and `Result`.
- `JsText`: the JavaScript conversions the code relies on. These are `String(n)`,
  `parseInt(s)` (leading white space, an optional sign, the longest run of digits, NaN as
  `None`) and the unary plus on text (`ToNumber`). It proves the round trips
  `parseInt(String(i)) == i` and `+String(i) == i` for the model's unbounded integers; for
  JavaScript's numbers they hold for integers of magnitude below 2^53 (see "Left out").
- `RedisMock`: the double's four dictionaries (keys, sets, queues, expirations) as a value
  `Db`.
  - Each command is a function from the old `Db` to a `Reply` (the new `Db` and the returned
    value).
  - The class `RedisClientMock` holds the dictionaries as fields and changes them in place. Its
    methods are proved to end in the state that function gives.
  - Sets are sequences in insertion order with no duplicates, as a JavaScript `Set` and
    `Array.from` give them.
- `HttpProtect`: the engine's configuration, keys, threshold policy and the pure `VerifyModel`
  (split into `CountRequest` and `Judge`). `Replay` gives consecutive calls for one IP. The
  class `HttpProtect` issues the store commands against a `RedisClientMock` and is proved to
  end where `VerifyModel` says.

Time is a parameter `now` in milliseconds, standing for `Date.now()`. The timer that `expire`
schedules is the explicit step `RedisClientMock.Evict` / `EvictDb`, taken whenever the caller
chooses.

The ban test sits inside the `maxRequests` test (src/index.ts:201-202). A ban therefore needs
a count above both thresholds, not above `banLimit` alone. With `banLimit < maxRequests`, a
count between the two is SAFE (`ClassifyBoundaries`).

One consequence of the code is worth naming. The IP text `block-list` has a counter key equal
to the block list's key (`CounterKeyMeetsBlockList`). When the double's timer deletes that
counter, it deletes the block list too. This is why `BanSurvivesExpiry` excludes that one IP.

## Model

| member | source | states |
|---|---|---|
| `JsText.NatToString` | test/mocks/redis.ts:98 | `String(n)` of a natural number is a non-empty run of decimal digits |
| `JsText.DigitsValueOfNatToString` | test/mocks/redis.ts:98 | the digits `String(n)` writes denote `n` again |
| `JsText.IntToStringShape` | test/mocks/redis.ts:98 | `String(i)` has no surrounding white space, starts with `-` exactly for negative `i`, and has the digits of `|i|` after the sign |
| `JsText.LeadingDigitsOfDigits` | test/mocks/redis.ts:395 | parseInt's digit scan takes the whole of an all-digit text |
| `JsText.LeadingDigitsPrefix` | test/mocks/redis.ts:395 | the digit scan stops at the first non-digit after a run of digits |
| `JsText.ParseIntOfIntToString` | test/mocks/redis.ts:395 | `parseInt(String(i)) == i` for every integer `i` of the model (for JavaScript's numbers: magnitude below 2^53) |
| `JsText.ParseIntOfPrefix` | test/mocks/redis.ts:395 | parseInt reads a numeric prefix and ignores the rest (`"12abc"` is 12) |
| `JsText.ToNumberOfIntToString` | src/index.ts:242 | the unary plus reads `String(i)` back as `i` (for JavaScript's numbers: magnitude below 2^53) |
| `JsText.IntToString` | test/mocks/redis.ts:98 | `String(i)` of an integer: `-` and the digits of `|i|` for negative `i`, the digits of `i` otherwise (its shape is `IntToStringShape`) |
| `JsText.TrimStart` | test/mocks/redis.ts:395 | the white space that parseInt and Number skip first: the result is a suffix of the text that does not start with white space |
| `JsText.TrimEnd` | src/index.ts:242 | the trailing white space Number ignores: the result is a prefix of the text that does not end with white space |
| `JsText.LeadingDigits` | test/mocks/redis.ts:395 | parseInt's digit scan: an all-digit prefix of the text, followed by a non-digit or by the end |
| `JsText.ParseInt` | test/mocks/redis.ts:395 | `parseInt(s)` in radix 10: leading white space skipped, an optional sign, then the longest run of digits; `None` (NaN) when no digit follows |
| `JsText.ToNumber` | src/index.ts:242 | the unary plus on text: surrounding white space ignored, the empty text is 0, an optionally signed run of digits is its value, anything else is `None` (NaN) |
| `RedisMock.Stringify` | test/mocks/redis.ts:98 | `String(value)`: a number as its decimal text, a text as itself |
| `RedisMock.NumberOrZero` | test/mocks/redis.ts:395 | `parseInt(value) || 0`: the number parseInt reads from the value's text, 0 for NaN |
| `RedisMock.IncrValue` | test/mocks/redis.ts:389-396 | what incr stores and returns: 1 for an absent key (first set to 0), else `parseInt(value) || 0` plus one |
| `RedisMock.AddAll` | test/mocks/redis.ts:139-145 | the set's members after adding the values one at a time in order, a value already present being skipped |
| `RedisMock.SetReply` | test/mocks/redis.ts:68-73 | set stores the value under the key and returns 1 |
| `RedisMock.SetNxReply` | test/mocks/redis.ts:76-89 | setnx stores the value and returns 1 only for an absent key ending in `:watch:lock`; otherwise it returns 0 and changes nothing |
| `RedisMock.GetReply` | test/mocks/redis.ts:92-107 | get gives the stored value's text, and `None` (null) for an absent key |
| `RedisMock.ExistsReply` | test/mocks/redis.ts:110-121 | exists gives 1 when keys, sets or queues hold the key, else 0 |
| `RedisMock.SAddReply` | test/mocks/redis.ts:124-149 | sadd makes the set (empty when missing) `AddAll` of its members and the values, and returns by how much the set grew |
| `RedisMock.SIsMemberReply` | test/mocks/redis.ts:153-162 | sismember gives 1 when the set exists and holds the member, else 0 |
| `RedisMock.ExpireReply` | test/mocks/redis.ts:165-194 | expire on a present key records the deadline `now + seconds * 1000` and returns 1; on an absent key it returns 0 and changes nothing |
| `RedisMock.LPushReply` | test/mocks/redis.ts:197-205 | lpush appends the value to the key's queue (empty when missing) and returns 1 |
| `RedisMock.DelKeyReply` | test/mocks/redis.ts:352-366 | one key of del leaves all four dictionaries and counts one for each of keys, queues and sets that held it |
| `RedisMock.DelReply` | test/mocks/redis.ts:348-370 | del deletes the keys one after another and returns the sum of their counts |
| `RedisMock.IncrReply` | test/mocks/redis.ts:384-401 | incr stores `IncrValue` under the key as a number and returns it |
| `RedisMock.SMembersReply` | test/mocks/redis.ts:404-412 | smembers gives the set's members in insertion order, and `[]` for a missing set |
| `RedisMock.EvictDb` | test/mocks/redis.ts:182-187 | the expiry timer's deletion: the key leaves keys, sets, queues and expirations |
| `RedisMock.GetAfterSet` | test/mocks/redis.ts:68-107 | set returns 1; get after set returns the stored value's text; other keys read as before |
| `RedisMock.NumberOrZeroOfInt` | test/mocks/redis.ts:395 | incr reads a stored number `n` as `n` (for JavaScript's numbers: magnitude below 2^53) |
| `RedisMock.SetNxOnlyWritesAbsentLocks` | test/mocks/redis.ts:76-89 | setnx returns 1 exactly for an absent key ending in `:watch:lock`, and then stores the value; otherwise it changes nothing |
| `RedisMock.LockKeysEndInK` | test/mocks/redis.ts:80 | every lock key is non-empty and ends in `k` |
| `RedisMock.SetNxFailsOffLocks` | test/mocks/redis.ts:80-88 | setnx on a key not ending in `k` returns 0 and changes nothing |
| `RedisMock.IncrCounts` | test/mocks/redis.ts:384-401 | incr returns 1 on an absent key and `n + 1` on a stored `n`, and stores what it returns |
| `RedisMock.IncrOfNonNumeric` | test/mocks/redis.ts:395-396 | a value with no numeric prefix counts as 0, so incr returns 1 |
| `RedisMock.IncrOfNumericPrefix` | test/mocks/redis.ts:395-396 | a text value counts from its numeric prefix |
| `RedisMock.IncrTimesCounts` | test/mocks/redis.ts:384-401 | `n` increments of an absent key store `n`, and the `n`-th returns `n` |
| `RedisMock.GetAfterIncr` | test/mocks/redis.ts:92-107 | get after incr returns the decimal text of incr's result |
| `RedisMock.AddAllGrows` | test/mocks/redis.ts:139-145 | adding values keeps the old members in order at the front, makes every value a member, and brings in nothing else |
| `RedisMock.AddAllKeepsDistinct` | test/mocks/redis.ts:129-145 | a set without duplicates stays without duplicates |
| `RedisMock.AddAllOfMembers` | test/mocks/redis.ts:139-145 | adding only existing members changes nothing |
| `RedisMock.AddAllCount` | test/mocks/redis.ts:139-148 | sadd's count is the number of distinct given values not yet in the set |
| `RedisMock.SAddFacts` | test/mocks/redis.ts:124-149 | after sadd every value is a member, the old members stay in front, the count is the number of new distinct values, no duplicates, other sets unchanged |
| `RedisMock.SAddIdempotent` | test/mocks/redis.ts:124-149 | repeating an sadd returns 0 and changes nothing |
| `RedisMock.SIsMemberMeansMember` | test/mocks/redis.ts:153-162 | sismember is 1 exactly when smembers lists the member, else 0 |
| `RedisMock.ExpireMatchesExists` | test/mocks/redis.ts:110-194 | expire returns what exists returns; on a present key it records the deadline `now + seconds * 1000`, on an absent one it changes nothing; keys, sets, queues and every other key's deadline are untouched |
| `RedisMock.LPushAppends` | test/mocks/redis.ts:197-205 | two lpushes leave the queue as its old contents (empty when missing) followed by the two values in call order; every other queue and the other dictionaries are untouched |
| `RedisMock.LPushAtEnd` | test/mocks/redis.ts:197-205 | one lpush returns 1 and grows the queue by one element at its end, keeping its earlier contents in front; every other queue and the other dictionaries are untouched |
| `RedisMock.DelOneKey` | test/mocks/redis.ts:348-370 | del of one key counts one per kind of storage (keys, queues, sets) that held it and removes it from all four |
| `RedisMock.DelClosedForm` | test/mocks/redis.ts:348-370 | del of a list of keys removes every listed key from every dictionary and returns the number of (kind, key) pairs that were present; duplicates count once |
| `RedisMock.DelKeepsDistinct` | test/mocks/redis.ts:348-370 | del leaves the remaining sets without duplicates |
| `RedisMock.DelOfAbsent` | test/mocks/redis.ts:348-370 | del of keys that do not exist returns 0 and changes no data |
| `RedisMock.DelForgets` | test/mocks/redis.ts:348-370 | after del a listed key neither exists nor reads, and has no deadline |
| `RedisMock.EvictIsDel` | test/mocks/redis.ts:182-187 | the expiry timer's deletion is del of that one key |
| `RedisMock.EvictForgets` | test/mocks/redis.ts:182-187 | after the timer fires the key neither exists nor reads; other keys and sets are untouched |
| `RedisMock.RedisClientMock.constructor` | test/mocks/redis.ts:38-44 | the dictionaries start empty |
| `RedisMock.RedisClientMock.Set` | test/mocks/redis.ts:68-73 | the new state and the result are those of `SetReply`, and the sets stay without duplicates |
| `RedisMock.RedisClientMock.SetNx` | test/mocks/redis.ts:76-89 | the new state and the result are those of `SetNxReply`, and the sets stay without duplicates |
| `RedisMock.RedisClientMock.Get` | test/mocks/redis.ts:92-107 | returns the stored value's text, and `null` exactly when the key is absent |
| `RedisMock.RedisClientMock.Exists` | test/mocks/redis.ts:110-121 | returns 1 exactly when keys, sets or queues hold the key |
| `RedisMock.RedisClientMock.SAdd` | test/mocks/redis.ts:124-149 | the loop adds the values one at a time; the state and the count match `SAddReply`, and the sets stay without duplicates |
| `RedisMock.RedisClientMock.SIsMember` | test/mocks/redis.ts:153-162 | returns 1 exactly when the set exists and holds the member |
| `RedisMock.RedisClientMock.Expire` | test/mocks/redis.ts:165-194 | the new state and the result are those of `ExpireReply`, and the sets stay without duplicates |
| `RedisMock.RedisClientMock.LPush` | test/mocks/redis.ts:197-205 | the new state and the result are those of `LPushReply`, and the sets stay without duplicates |
| `RedisMock.RedisClientMock.Del` | test/mocks/redis.ts:348-370 | the loop deletes the keys one at a time; the state and the count match `DelReply`, whose closed form is `DelClosedForm`, and the sets stay without duplicates |
| `RedisMock.RedisClientMock.DeleteKey` | test/mocks/redis.ts:352-366 | one round of del's loop: the state and the count match `DelKeyReply`, and the sets stay without duplicates |
| `RedisMock.RedisClientMock.Incr` | test/mocks/redis.ts:384-401 | the new state and the result are those of `IncrReply`, and the sets stay without duplicates |
| `RedisMock.RedisClientMock.SMembers` | test/mocks/redis.ts:404-412 | returns the set's members in insertion order, and `[]` for a missing set |
| `RedisMock.RedisClientMock.Evict` | test/mocks/redis.ts:182-187 | the timer's deletion: the state becomes `EvictDb`, and the sets stay without duplicates |
| `HttpProtect.HttpCode` | src/index.ts:186-221 | the code verify pairs with each status: 200 for SAFE, 429 for LIMITED, 418 for BANNED |
| `HttpProtect.Respond` | src/index.ts:126-129 | the response for a status, with that status's code |
| `HttpProtect.Setting` | src/index.ts:160-164 | `option || +(env || default)`: a non-zero option, else the environment's value when set, else the default |
| `HttpProtect.ResolveConfig` | src/index.ts:157-166 | the prefix is the non-empty option or `imq:http-protect`, with no environment variable; ttl, maxRequests and banLimit come from `Setting` |
| `HttpProtect.CounterKey` | src/index.ts:183 | the counter key `<prefix>:<ip>`, the same text isLimited reads (src/index.ts:241) |
| `HttpProtect.BlockListKey` | src/index.ts:165 | the block-list key `<prefix>:block-list` |
| `HttpProtect.CountRequest` | src/index.ts:192-196 | setnx of 1 on the counter; when it writes nothing, the count is `incr || 1` |
| `HttpProtect.Judge` | src/index.ts:201-221 | above maxRequests and banLimit: sadd of the IP to the block list and BANNED/418; above maxRequests only: LIMITED/429; otherwise SAFE/200 |
| `HttpProtect.VerifyModel` | src/index.ts:183-221 | for a resolved IP: a listed IP gets BANNED/418 at once; otherwise `CountRequest`, then expire of the counter for ttl seconds, then `Judge` |
| `HttpProtect.ReadRequests` | src/index.ts:242 | `+(reply || 0)`: a missing or empty reply is 0, any other text is read by `ToNumber` |
| `HttpProtect.ReasonPhrase` | src/index.ts:135-140 | the HTTP_TEXT table: `I'm a teapot` for 418, `Too Many Requests` for 429, and `undefined` for any other code |
| `HttpProtect.TextReaction` | src/index.ts:269-285 | textMiddleware's choice: SAFE calls `next`; any other verdict is rejected with its code and the body `<code> <reason phrase>` |
| `HttpProtect.Classify` | src/index.ts:201-221 | SAFE exactly when the count is at most maxRequests; LIMITED exactly when it is above maxRequests and at most banLimit; BANNED exactly when it is above both; the code matches the status |
| `HttpProtect.ClassifyMonotone` | src/index.ts:120-124 | more requests never give a milder verdict in the order SAFE < LIMITED < BANNED |
| `HttpProtect.ClassifyBoundaries` | src/index.ts:201-221 | a count equal to a threshold keeps the milder verdict; one more than both is BANNED; with banLimit below maxRequests, counts between them stay SAFE |
| `HttpProtect.DefaultConfig` | src/index.ts:157-166 | with no options and no environment the settings are `imq:http-protect`, 10, 200, 1000 |
| `HttpProtect.ConfigPrecedence` | src/index.ts:157-166 | a non-zero option wins, else the environment, else the default; a zero setting can only come from the environment, and the prefix is never empty |
| `HttpProtect.CounterKeyInjective` | src/index.ts:183 | two IPs share a counter key exactly when they are equal |
| `HttpProtect.CounterKeyMeetsBlockList` | src/index.ts:165-183 | a counter key equals the block-list key exactly for the IP text `block-list` |
| `HttpProtect.CounterNeverSetNx` | src/index.ts:194 | for an address made of hex digits, dots and colons, the double's setnx never writes the counter, so every count comes from incr |
| `HttpProtect.CountRequestStep` | src/index.ts:192-196 | whichever of setnx and incr writes, the counter ends one above the old count and the count is that value (or 1) |
| `HttpProtect.JudgeStep` | src/index.ts:201-221 | the verdict is `Classify`'s, and only a BANNED verdict changes the store, by adding the IP to the block list |
| `HttpProtect.BannedShortCircuit` | src/index.ts:185-190 | a listed IP gets BANNED/418 and the store is left exactly as it was |
| `HttpProtect.CountingStep` | src/index.ts:183-221 | for an unlisted IP: the counter holds one more than before, its deadline is `now + ttl` seconds, queues are untouched, the verdict classifies the new count, and the block list gains the IP only on BANNED |
| `HttpProtect.VerifyOnlyAdds` | src/index.ts:185-210 | no set loses a member; the block list gains at most the IP; the IP is listed afterwards exactly when it was before or the verdict is BANNED |
| `HttpProtect.VerifyIsolated` | src/index.ts:183 | verify for one IP leaves another IP's counter and block-list membership as they were |
| `HttpProtect.VerifyFromCount` | src/index.ts:185-221 | from a stored count `c`, verify stores `c + 1`, classifies `c + 1`, and lists the IP exactly when `c + 1` reaches the ban point |
| `HttpProtect.ReplayBanned` | src/index.ts:185-190 | once listed, any number of further calls answer BANNED and change nothing |
| `HttpProtect.ReplayCounts` | src/index.ts:185-221 | counting on from `c` below the ban point, `n` further calls leave the counter at `min(c + n, ban point)`, list the IP exactly when `c + n` reaches it, and answer `Classify(c + n)` up to it and BANNED after |
| `HttpProtect.FreshIpCounts` | src/index.ts:192-221 | the `N`-th call from a fresh IP sees `N` requests, up to the ban point |
| `HttpProtect.ColdStart` | src/index.ts:192-221 | the first call from a fresh IP stores 1 and is SAFE whenever maxRequests is at least 1 |
| `HttpProtect.BanSurvivesExpiry` | src/index.ts:185-199 | after the counter's timer fires, a listed IP is still BANNED and nothing is counted |
| `HttpProtect.ExpiryRestartsWindow` | src/index.ts:192-199 | after the counter's timer fires, an unlisted IP's next call stores 1 and classifies 1 |
| `HttpProtect.ReadRequestsOfCounter` | src/index.ts:240-245 | isLimited's read-back gives the stored count exactly, and 0 for a missing counter |
| `HttpProtect.ToNetworks` | src/index.ts:230 | one `/32` network per block-list member, position by position |
| `HttpProtect.NetworksMembership` | src/index.ts:230-238 | an IP's `/32` network is listed exactly when the IP is a member; distinct members give distinct networks |
| `HttpProtect.TooManyRequestsText` | src/index.ts:135-140 | a LIMITED verdict is rejected with 429 and the body `429 Too Many Requests` |
| `HttpProtect.TeapotText` | src/index.ts:135-140 | a BANNED verdict is rejected with 418 and the body `418 I'm a teapot` |
| `HttpProtect.ReactionsOfVerdicts` | src/index.ts:264-286 | SAFE, and only SAFE, passes to the next handler; LIMITED sends `429 Too Many Requests` and BANNED sends `418 I'm a teapot` |
| `HttpProtect.DefaultScenarios` | test/src/index.ts:47-91 | under the defaults a fresh IP is SAFE up to 200 calls; from 201 to 1000 calls it is LIMITED, unlisted, and reads back its call count; from 1001 calls on it is BANNED and listed as a `/32` network |
| `HttpProtect.HttpProtect.constructor` | src/index.ts:157-166 | the settings are those `ResolveConfig` gives, and the block-list key is `<prefix>:block-list` |
| `HttpProtect.HttpProtect.Verify` | src/index.ts:177-222 | without a handle it fails and touches nothing; otherwise the response and the new store are exactly `VerifyModel`'s for the resolved IP (`''` when unresolved) |
| `HttpProtect.HttpProtect.IsLimited` | src/index.ts:240-245 | true exactly when the stored count is above maxRequests; a missing counter or handle reads as 0 |
| `HttpProtect.HttpProtect.BannedNetworks` | src/index.ts:224-231 | the block list as `/32` networks, one per member; empty without a handle |
| `HttpProtect.HttpProtect.IsBanned` | src/index.ts:234-238 | true exactly when a handle is present and the IP is in the block list |
| `HttpProtect.HttpProtect.Destroy` | src/index.ts:320-323 | the handle is gone, so every later verify fails |

## Left out

- The connection code is not modelled: `connect`, the default `localhost:6379` options, and `disconnect`. `destroy` only drops the handle, and the store is the double passed in.
- `getClientIp` (the header parsing of `request-ip`) is not modelled. `Verify` takes the resolved IP, with `None` for an unresolved IP.
- The network matching that `Networks.includes` performs is not modelled. `IsBanned` assumes every block-list member is a single address, and treats a match as equality with a listed `/32` network. That is exact for IPv4 members. For an IPv6 member, `<ipv6>/32` is a prefix that covers 2^96 addresses, so `includes` can match more addresses than the model does.
- `HttpProtect.ReactionsOfVerdicts`: the middlewares are reduced to the choice between calling `next` and rejecting, plus the text body. Header setting, `res.end`, the plain `middleware` (status only) and the JSON body of `jsonMiddleware` are not modelled.
- Every `await` is taken to complete in call order. Concurrent `verify` calls and their interleavings are not modelled.
- The double's timers are not scheduled. The deletion a timer performs is `Evict`, applied when the caller chooses. The double never cancels the timer of an earlier `expire`, so a counter can be deleted before its latest deadline. The model leaves the timing of `Evict` open, so it covers those early deletions, but it does not relate `Evict` to the recorded deadlines.
- The double's callbacks (`cbExecute`) are not modelled. Neither are its commands outside the engine's use and the ones listed: `brpop`, `zadd`, `evalsha`, `script`, `client` and the rest.
- `set` of `undefined`, and values other than integers and texts, are not modelled.
- Keys that clash with JavaScript object prototype names are not modelled.
- Environment values are modelled as already-converted integers (`None` when unset or empty). A non-numeric environment text (NaN) and fractional settings are not modelled, since the model has no floating point.
- Numbers are unbounded integers. JavaScript keeps counters and settings as doubles. `String(n)` writes exponent notation from 10^21 on (`String(1e21)` is `1e+21`, which parseInt reads as 1), and integers above 2^53 are not exact. `JsText.IntToString` therefore agrees with `String` only for magnitudes below 10^21. The round trips `JsText.ParseIntOfIntToString`, `JsText.ToNumberOfIntToString` and `RedisMock.NumberOrZeroOfInt`, and incr's `n + 1`, match JavaScript only below 2^53.
- `JsText.ParseInt` and `JsText.ToNumber` cover decimal integers only. The hexadecimal, octal, binary, `Infinity` and fractional forms of `Number()`, and `parseInt`'s `0x` prefix, are not modelled. Stored counts are always written by `String` of an integer.
- `JsText.IsWhiteSpace` covers the ASCII white space, U+00A0, U+FEFF, U+2028 and U+2029, but not the other Unicode space separators.
