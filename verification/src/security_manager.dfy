/** `utils/security.py`: the failed-attempt counter that blocks an IP,
    the rate-limit middleware, and input sanitizing.

    The wall clock is a parameter (`now`, in seconds).  Key generation,
    password hashing and tokens are left out: they are randomness,
    hashing and a JWT library. */
module SecurityManager {
  import opened Wrappers
  import opened Json
  import Dicts
  import Text

  /** The failure count of one IP and the time of its latest failure. */
  datatype Attempt = Attempt(count: nat, last: real)

  /** The manager's state: `failed_attempts` and `blocked_ips`. */
  datatype Guard = Guard(failed: map<string, Attempt>, blocked: set<string>)

  /** Failures more than this many seconds apart start a new count. */
  const ResetWindow: real := 3600.0

  /** The count at which an IP is blocked. */
  const BlockAt: nat := 5

  /** `record_failed_attempt`: the first failure of an IP counts 1; a
      later one counts on from the previous failure unless more than an
      hour has passed, which restarts the count.  Reaching five blocks the
      IP for good. */
  function RecordFailedAttempt(g: Guard, ip: string, now: real): (r: Guard)
    ensures ip in r.failed && r.failed[ip].last == now
    ensures ip !in g.failed ==> r.failed[ip].count == 1 && r.blocked == g.blocked
    ensures ip in g.failed && now - g.failed[ip].last > ResetWindow ==> r.failed[ip].count == 1
    ensures ip in g.failed && now - g.failed[ip].last <= ResetWindow ==> r.failed[ip].count == g.failed[ip].count + 1
    ensures ip in g.failed ==> r.blocked == if r.failed[ip].count >= BlockAt then g.blocked + {ip} else g.blocked
    ensures forall other :: other != ip ==> (other in r.failed <==> other in g.failed)
    ensures forall other :: other != ip && other in g.failed ==> r.failed[other] == g.failed[other]
  {
    if ip in g.failed then
      var prev := g.failed[ip];
      var count := if now - prev.last > ResetWindow then 1 else prev.count + 1;
      Guard(g.failed[ip := Attempt(count, now)], if count >= BlockAt then g.blocked + {ip} else g.blocked)
    else
      Guard(g.failed[ip := Attempt(1, now)], g.blocked)
  }

  /** `is_ip_blocked`. */
  predicate IsIpBlocked(g: Guard, ip: string) {
    ip in g.blocked
  }

  /** Failures of `ip` at the given times, one after another. */
  function Replay(g: Guard, ip: string, times: seq<real>): Guard
    decreases |times|
  {
    if |times| == 0 then g else Replay(RecordFailedAttempt(g, ip, times[0]), ip, times[1..])
  }

  /** No recorded failure ever unblocks an IP, whichever IP fails. */
  lemma {:induction false} BlockingIsPermanent(g: Guard, ip: string, times: seq<real>, other: string)
    requires IsIpBlocked(g, other)
    ensures IsIpBlocked(Replay(g, ip, times), other)
    decreases |times|
  {
    if |times| > 0 {
      BlockingIsPermanent(RecordFailedAttempt(g, ip, times[0]), ip, times[1..], other);
    }
  }

  /** Each failure within an hour of the one before adds one: after `k`
      such failures the count is at least `k`. */
  lemma {:induction false} BurstCounts(g: Guard, ip: string, times: seq<real>)
    requires |times| > 0
    requires forall k :: 0 < k < |times| ==> times[k] - times[k - 1] <= ResetWindow
    ensures ip in Replay(g, ip, times).failed
    ensures Replay(g, ip, times).failed[ip].count >= |times|
    ensures Replay(g, ip, times).failed[ip].last == times[|times| - 1]
    ensures |times| >= BlockAt ==> IsIpBlocked(Replay(g, ip, times), ip)
    decreases |times|
  {
    if |times| == 1 {
      assert Replay(g, ip, times) == RecordFailedAttempt(g, ip, times[0]);
    } else {
      var init := times[..|times| - 1];
      var t := times[|times| - 1];
      assert times == init + [t];
      assert forall k :: 0 < k < |init| ==> init[k] - init[k - 1] <= ResetWindow by {
        forall k | 0 < k < |init| ensures init[k] - init[k - 1] <= ResetWindow {
          assert init[k] == times[k] && init[k - 1] == times[k - 1];
        }
      }
      BurstCounts(g, ip, init);
      ReplaySnoc(g, ip, init, t);
      var before := Replay(g, ip, init);
      assert before.failed[ip].last == times[|times| - 2];
      assert t - before.failed[ip].last <= ResetWindow;
      var after := RecordFailedAttempt(before, ip, t);
      assert after.failed[ip].count == before.failed[ip].count + 1;
      assert Replay(g, ip, times) == after;
    }
  }

  /** Replaying one more failure is recording it after the others. */
  lemma {:induction false} ReplaySnoc(g: Guard, ip: string, times: seq<real>, t: real)
    ensures Replay(g, ip, times + [t]) == RecordFailedAttempt(Replay(g, ip, times), ip, t)
    decreases |times|
  {
    if |times| == 0 {
      assert Replay(RecordFailedAttempt(g, ip, t), ip, []) == RecordFailedAttempt(g, ip, t);
      assert ([] + [t])[1..] == [];
    } else {
      assert (times + [t])[1..] == times[1..] + [t];
      ReplaySnoc(RecordFailedAttempt(g, ip, times[0]), ip, times[1..], t);
    }
  }

  /** `validate_request_rate`: a placeholder that admits every request. */
  function ValidateRequestRate(g: Guard, ip: string, limit: int, window: int): (ok: bool)
    ensures ok
  {
    true
  }

  /** The HTTP error `check_rate_limit` raises. */
  datatype HttpError = HttpError(status: int, detail: string)

  /** `check_rate_limit`: a blocked IP gets 429 "IP已被封锁"; every other
      request passes, because the rate check always admits it, so the
      middleware never records a failure. */
  function CheckRateLimit(g: Guard, ip: string): (r: (Option<HttpError>, Guard))
    ensures r.0.Some? <==> IsIpBlocked(g, ip)
    ensures r.0.Some? ==> r.0.value == HttpError(429, "IP已被封锁")
    ensures r.1 == g
  {
    if IsIpBlocked(g, ip) then (Some(HttpError(429, "IP已被封锁")), g)
    else if !ValidateRequestRate(g, ip, 100, 3600) then
      (Some(HttpError(429, "请求过于频繁")), RecordFailedAttempt(g, ip, 0.0))
    else (None, g)
  }

  /** Through the middleware alone a fresh manager never blocks anyone. */
  lemma {:induction false} MiddlewareNeverBlocks(g: Guard, ips: seq<string>)
    requires g.blocked == {}
    ensures forall i :: 0 <= i < |ips| ==> CheckRateLimit(g, ips[i]).0.None?
    ensures CheckRateLimits(g, ips) == g
    decreases |ips|
  {
    if |ips| > 0 {
      MiddlewareNeverBlocks(CheckRateLimit(g, ips[0]).1, ips[1..]);
    }
  }

  /** Requests through the middleware, one after another. */
  function CheckRateLimits(g: Guard, ips: seq<string>): Guard
    decreases |ips|
  {
    if |ips| == 0 then g else CheckRateLimits(CheckRateLimit(g, ips[0]).1, ips[1..])
  }

  // ---------------------------------------------------------------------
  // Sanitizing
  // ---------------------------------------------------------------------

  /** The substrings `sanitize_input` deletes, in the order it deletes them. */
  const Dangerous: seq<string> := ["<", ">", "\"", "'", "&", "script", "javascript"]

  /** The five single characters among them. */
  const DangerousChars: set<char> := {'<', '>', '"', '\'', '&'}

  /** Deletes every occurrence of each pattern of `pats`, one pattern after
      the other. */
  function RemoveAll(s: string, pats: seq<string>): string
    requires forall i :: 0 <= i < |pats| ==> |pats[i]| > 0
    decreases |pats|
  {
    if |pats| == 0 then s else RemoveAll(Text.Replace(s, pats[0], ""), pats[1..])
  }

  /** Deleting never introduces a character. */
  lemma {:induction false} RemoveAllChars(s: string, pats: seq<string>)
    requires forall i :: 0 <= i < |pats| ==> |pats[i]| > 0
    ensures forall c :: c in RemoveAll(s, pats) ==> c in s
    decreases |pats|
  {
    if |pats| > 0 {
      Text.ReplaceEmptyChars(s, pats[0]);
      RemoveAllChars(Text.Replace(s, pats[0], ""), pats[1..]);
    }
  }

  /** A string holding none of the patterns is left as it is. */
  lemma {:induction false} RemoveAllAbsent(s: string, pats: seq<string>)
    requires forall i :: 0 <= i < |pats| ==> |pats[i]| > 0 && !Text.Contains(s, pats[i])
    ensures RemoveAll(s, pats) == s
    decreases |pats|
  {
    if |pats| > 0 {
      Text.ReplaceAbsent(s, pats[0], "");
      RemoveAllAbsent(s, pats[1..]);
    }
  }

  /** `sanitize_input` on a string. */
  function SanitizeString(s: string): (r: string)
    ensures forall c :: c in r ==> c in s && c !in DangerousChars
  {
    var r := RemoveAll(s, Dangerous);
    SanitizeStringClean(s);
    r
  }

  /** A one-character pattern is gone for good once it has been deleted. */
  lemma {:induction false} RemoveAllDropsChars(s: string, pats: seq<string>)
    requires forall i :: 0 <= i < |pats| ==> |pats[i]| > 0
    ensures forall i :: 0 <= i < |pats| && |pats[i]| == 1 ==> pats[i][0] !in RemoveAll(s, pats)
    decreases |pats|
  {
    if |pats| > 0 {
      var s1 := Text.Replace(s, pats[0], "");
      RemoveAllDropsChars(s1, pats[1..]);
      RemoveAllChars(s1, pats[1..]);
      if |pats[0]| == 1 {
        assert pats[0] == [pats[0][0]];
        Text.ReplaceCharGone(s, pats[0][0]);
      }
      forall i | 1 <= i < |pats| && |pats[i]| == 1 ensures pats[i][0] !in RemoveAll(s, pats) {
        assert pats[i] == pats[1..][i - 1];
      }
    }
  }

  /** Sanitizing deletes every one of the five characters and adds nothing. */
  lemma SanitizeStringClean(s: string)
    ensures forall c :: c in RemoveAll(s, Dangerous) ==> c in s && c !in DangerousChars
  {
    RemoveAllChars(s, Dangerous);
    RemoveAllDropsChars(s, Dangerous);
    var r := RemoveAll(s, Dangerous);
    assert |Dangerous[0]| == 1 && Dangerous[0][0] == '<' && Dangerous[0][0] !in r;
    assert |Dangerous[1]| == 1 && Dangerous[1][0] == '>' && Dangerous[1][0] !in r;
    assert |Dangerous[2]| == 1 && Dangerous[2][0] == '"' && Dangerous[2][0] !in r;
    assert |Dangerous[3]| == 1 && Dangerous[3][0] == '\'' && Dangerous[3][0] !in r;
    assert |Dangerous[4]| == 1 && Dangerous[4][0] == '&' && Dangerous[4][0] !in r;
  }

  /** `sanitize_input`: strings lose the dangerous substrings, dictionary
      values and list items are sanitized in turn (keys are kept as they
      are), anything else is returned unchanged. */
  function Sanitize(v: Value): (r: Value)
    ensures v.Str? <==> r.Str?
    ensures v.List? <==> r.List?
    ensures v.Obj? <==> r.Obj?
    ensures !v.Str? && !v.List? && !v.Obj? ==> r == v
    ensures v.Str? ==> r.s == SanitizeString(v.s)
    ensures v.List? ==> |r.items| == |v.items| && forall i :: 0 <= i < |v.items| ==> r.items[i] == Sanitize(v.items[i])
    ensures v.Obj? ==> Dicts.Keys(r.fields) == Dicts.Keys(v.fields)
    ensures v.Obj? ==> forall i :: 0 <= i < |v.fields| ==> r.fields[i].1 == Sanitize(v.fields[i].1)
  {
    match v
    case Str(s) => Str(SanitizeString(s))
    case List(items) => List(seq(|items|, i requires 0 <= i < |items| => Sanitize(items[i])))
    case Obj(fields) => Obj(seq(|fields|, i requires 0 <= i < |fields| => (fields[i].0, Sanitize(fields[i].1))))
    case _ => v
  }

  /** No string value at any depth holds one of the five characters. */
  predicate Clean(v: Value) {
    match v
    case Str(s) => forall c :: c in s ==> c !in DangerousChars
    case List(items) => forall i :: 0 <= i < |items| ==> Clean(items[i])
    case Obj(fields) => forall i :: 0 <= i < |fields| ==> Clean(fields[i].1)
    case _ => true
  }

  /** Sanitized data is clean. */
  lemma {:induction false} SanitizeCleans(v: Value)
    ensures Clean(Sanitize(v))
  {
    match v
    case List(items) =>
      forall i | 0 <= i < |items| ensures Clean(Sanitize(v).items[i]) {
        SanitizeCleans(items[i]);
      }
    case Obj(fields) =>
      forall i | 0 <= i < |fields| ensures Clean(Sanitize(v).fields[i].1) {
        SanitizeCleans(fields[i].1);
      }
    case _ =>
  }

  /** A string value none of whose strings holds a dangerous substring. */
  predicate Harmless(v: Value) {
    match v
    case Str(s) => forall i :: 0 <= i < |Dangerous| ==> !Text.Contains(s, Dangerous[i])
    case List(items) => forall i :: 0 <= i < |items| ==> Harmless(items[i])
    case Obj(fields) => forall i :: 0 <= i < |fields| ==> Harmless(fields[i].1)
    case _ => true
  }

  /** Harmless data is returned exactly as it was. */
  lemma {:induction false} SanitizeKeepsHarmless(v: Value)
    requires Harmless(v)
    ensures Sanitize(v) == v
  {
    match v
    case Str(s) =>
      RemoveAllAbsent(s, Dangerous);
    case List(items) =>
      forall i | 0 <= i < |items| ensures Sanitize(items[i]) == items[i] {
        SanitizeKeepsHarmless(items[i]);
      }
      assert Sanitize(v).items == items;
    case Obj(fields) =>
      forall i | 0 <= i < |fields| ensures Sanitize(v).fields[i] == fields[i] {
        SanitizeKeepsHarmless(fields[i].1);
      }
      assert Sanitize(v).fields == fields;
    case _ =>
  }
}
