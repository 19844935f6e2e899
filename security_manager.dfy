/** Class `SecurityManager` (include/SecurityManager.hpp): administrator sessions
    kept in a map from token to expiry, the per-address question cooldown kept in a
    map from address fingerprint to unlock time, and the CAPTCHA verdict.

    Every clock reading is a parameter `now` (system-clock ticks); the CAPTCHA
    provider's answer is a parameter; SHA-256 is the function `digest` given at
    construction. */
module Security {
  import opened Outcomes
  import opened Tools

  /** Lifetime of an administrator session, in minutes. */
  const SessionMinutes: int := 30

  /** The answer of the CAPTCHA verification endpoint: HTTP status and the
      boolean `success` field of its JSON body. */
  datatype CaptchaReply = CaptchaReply(status: int, success: bool)

  /** The session entries left by `std::erase_if(mTokens, expiry < now)`. */
  function PurgeExpired(tokens: map<string, int>, now: int): (kept: map<string, int>)
    ensures forall t :: t in kept <==> t in tokens && tokens[t] >= now
    ensures forall t :: t in kept ==> kept[t] == tokens[t]
  {
    map t | t in tokens && tokens[t] >= now :: tokens[t]
  }

  /** Purging at t1, then at a later t2, is the same as purging once at t2; with
      t1 == t2 this is idempotence of `checkToken`'s purge. */
  lemma PurgeExpiredTwice(tokens: map<string, int>, t1: int, t2: int)
    requires t1 <= t2
    ensures PurgeExpired(PurgeExpired(tokens, t1), t2) == PurgeExpired(tokens, t2)
  {
  }

  /** A session issued at `issuedAt` is still present at `now` exactly up to and
      including its expiry instant; a token never issued is never present. */
  lemma SessionWindow(tokens: map<string, int>, token: string, other: string, issuedAt: int, now: int)
    requires other != token && other !in tokens
    ensures var issued := tokens[token := CurrentTimestamp(issuedAt, SessionMinutes)];
            && (token in PurgeExpired(issued, now) <==> now <= CurrentTimestamp(issuedAt, SessionMinutes))
            && other !in PurgeExpired(issued, now)
  {
  }

  /** `checkIp`'s rule: protection off, no cooldown for the fingerprint, or the
      unlock time reached. */
  function CanSubmit(ipProtection: bool, cooldowns: map<string, int>, key: string, now: int): (ok: bool)
    ensures !ipProtection ==> ok
    ensures ipProtection && key !in cooldowns ==> ok
    ensures ipProtection && key in cooldowns ==> (ok <==> now >= cooldowns[key])
  {
    !ipProtection || key !in cooldowns || now >= cooldowns[key]
  }

  /** After a cooldown of `delay` minutes is registered at `t`, submission is
      refused before `t + delay` and allowed from then on; other fingerprints are
      unaffected. */
  lemma CooldownWindow(cooldowns: map<string, int>, key: string, other: string, t: int, delay: int, now: int)
    requires other != key
    ensures var after := cooldowns[key := CurrentTimestamp(t, delay)];
            && (CanSubmit(true, after, key, now) <==> now >= CurrentTimestamp(t, delay))
            && CanSubmit(true, after, other, now) == CanSubmit(true, cooldowns, other, now)
  {
  }

  /** Path of the CAPTCHA verification endpoint, up to the secret. */
  const CaptchaVerifyPath: string := "/recaptcha/api/siteverify?secret="
  const CaptchaResponseParam: string := "&response="

  class SecurityManager {
    const captchaClient: string
    const captchaSecret: string
    const login: string
    const password: string
    /** Minutes an address must wait between two questions. */
    const ipNextTryTime: U32
    /** Master switch for showing the question form. */
    const showAskQuestionFlag: bool
    /** Master switch for the per-address cooldown. */
    const ipProtection: bool
    /** The SHA-256 computation (OpenSSL's SHA256, called by `Tools::sha256`). */
    const digest: string -> Digest

    /** Session token to expiry timestamp (`mTokens`). */
    var tokens: map<string, int>
    /** Address fingerprint to unlock timestamp (`mIpNextTry`). */
    var ipNextTry: map<string, int>
    /** The addresses registered so far; not stored by SecurityManager. */
    ghost var registered: set<string>

    /** `Tools::sha256(ip)`: the key under which an address is recorded. */
    function Fingerprint(ip: string): (key: string)
      ensures |key| == 64 && IsLowerHex(key)
    {
      Sha256Hex(digest, ip)
    }

    /** No raw address is stored: the keys of the cooldown map are exactly the
        fingerprints of the registered addresses, each 64 lowercase hex digits. */
    ghost predicate Valid()
      reads this
      ensures Valid() ==> forall k :: k in ipNextTry ==> |k| == 64 && IsLowerHex(k)
    {
      ipNextTry.Keys == (set ip | ip in registered :: Fingerprint(ip))
    }

    constructor (captchaClient: string, captchaSecret: string, digest: string -> Digest,
                 login: string := "oiedmin", password: string := "poiessword",
                 ipNextTryTime: U32 := 1440, showAskQuestion: bool := false, ipProtection: bool := true)
      ensures Valid()
      ensures this.captchaClient == captchaClient && this.captchaSecret == captchaSecret
      ensures this.digest == digest && this.login == login && this.password == password
      ensures this.ipNextTryTime == ipNextTryTime && this.showAskQuestionFlag == showAskQuestion
      ensures this.ipProtection == ipProtection
      ensures tokens == map[] && ipNextTry == map[]
    {
      this.captchaClient := captchaClient;
      this.captchaSecret := captchaSecret;
      this.digest := digest;
      this.login := login;
      this.password := password;
      this.ipNextTryTime := ipNextTryTime;
      this.showAskQuestionFlag := showAskQuestion;
      this.ipProtection := ipProtection;
      tokens := map[];
      ipNextTry := map[];
      registered := {};
    }

    /** The query `validateCaptcha` posts for the form's token `gToken`: the
        verification path, this server's secret, then the token. */
    function CaptchaQuery(gToken: string): (query: string)
      ensures |query| == |CaptchaVerifyPath| + |captchaSecret| + |CaptchaResponseParam| + |gToken|
      ensures query[..|CaptchaVerifyPath|] == CaptchaVerifyPath
      ensures query[|CaptchaVerifyPath|..|CaptchaVerifyPath| + |captchaSecret|] == captchaSecret
      ensures query[|query| - |gToken|..] == gToken
    {
      CaptchaVerifyPath + captchaSecret + CaptchaResponseParam + gToken
    }

    /** `validateCaptcha`, given the provider's answer: only an HTTP 200 whose body
        says `success` verifies. */
    function ValidateCaptcha(reply: CaptchaReply): (valid: bool)
      ensures reply.status != 200 ==> !valid
      ensures reply.status == 200 ==> valid == reply.success
    {
      reply.status == 200 && reply.success
    }

    /** `authenticate`: on an exact login and password match, mints a session
        identifier and records it with an expiry 30 minutes after `now`. A wrong
        login and a wrong password give the same `None` and change nothing.
        `nanos` and `random` are what the identifier generator reads from the
        high-resolution clock and the random engine. */
    method Authenticate(login: string, password: string, now: int, nanos: int, random: seq<Byte>)
      returns (token: Option<string>)
      requires |random| == 8
      modifies this`tokens
      ensures token.Some? <==> login == this.login && password == this.password
      ensures token.Some? ==> token.value == UuidText(UuidBytes(nanos, random))
      ensures token.Some? ==> tokens == old(tokens)[token.value := CurrentTimestamp(now, SessionMinutes)]
      ensures token.None? ==> tokens == old(tokens)
    {
      if login == this.login && password == this.password {
        var t := UuidFromTimestamp(nanos, random);
        var timestamp := CurrentTimestamp(now, SessionMinutes);
        tokens := tokens[t := timestamp];
        token := Some(t);
      } else {
        token := None;
      }
    }

    /** `checkToken`: drops every session whose expiry is before `now`, then
        reports whether `token` is still recorded. */
    method CheckToken(token: string, now: int) returns (valid: bool)
      modifies this`tokens
      ensures tokens == PurgeExpired(old(tokens), now)
      ensures valid <==> token in old(tokens) && old(tokens)[token] >= now
      ensures valid <==> token in tokens
    {
      tokens := PurgeExpired(tokens, now);
      valid := token in tokens;
    }

    /** `registerIp`: with protection on, records the address's fingerprint with
        an unlock time `ipNextTryTime` minutes after `now`; otherwise nothing. */
    method RegisterIp(ip: string, now: int)
      modifies this`ipNextTry, this`registered
      ensures old(Valid()) ==> Valid()
      ensures ipNextTry == if ipProtection
                           then old(ipNextTry)[Fingerprint(ip) := CurrentTimestamp(now, ipNextTryTime)]
                           else old(ipNextTry)
    {
      if ipProtection {
        var nextTry := CurrentTimestamp(now, ipNextTryTime);
        var ipHash := Sha256(ip, digest);
        ipNextTry := ipNextTry[ipHash := nextTry];
        registered := registered + {ip};
      }
    }

    /** Whether `checkIp(ip)` holds at `now` in the current state. */
    function SubmissionAllowed(ip: string, now: int): bool
      reads this
    {
      CanSubmit(ipProtection, ipNextTry, Fingerprint(ip), now)
    }

    /** `checkIp`: reads the cooldown map and changes nothing. */
    method CheckIp(ip: string, now: int) returns (allowed: bool)
      ensures allowed <==> !ipProtection || Fingerprint(ip) !in ipNextTry || now >= ipNextTry[Fingerprint(ip)]
      ensures allowed == SubmissionAllowed(ip, now)
    {
      var ipHash := Sha256(ip, digest);
      allowed := !ipProtection || ipHash !in ipNextTry || now >= ipNextTry[ipHash];
    }

    /** Whether `showAskQuestion(ip)` holds at `now` in the current state. */
    function FormShown(ip: string, now: int): bool
      reads this
    {
      showAskQuestionFlag && SubmissionAllowed(ip, now)
    }

    /** `showAskQuestion`: the master switch and `checkIp`; false whenever the
        switch is off. */
    method ShowAskQuestion(ip: string, now: int) returns (shown: bool)
      ensures !showAskQuestionFlag ==> !shown
      ensures shown == (showAskQuestionFlag && SubmissionAllowed(ip, now))
    {
      shown := false;
      if showAskQuestionFlag {
        shown := CheckIp(ip, now);
      }
    }
  }
}
