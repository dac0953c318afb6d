/** registryauthclient.Client: bearer tokens cached per repository, with an expiry. */
module TokenCache {
  import opened Basics

  type Key = string

  /** Clock readings are in nanoseconds; ttl is the last one at which the token is used. */
  datatype CachedToken = CachedToken(token: string, ttl: int)

  type Tokens = map<Key, CachedToken>

  /** Seconds taken off the lifetime that the token service states. */
  const MARGIN := 10

  const SECOND := 1_000_000_000

  datatype TokenReply = TokenReply(token: string, expiresIn: int)

  // The two critical sections.

  /** A token whose time is before now is dropped; one whose time is exactly now is still used. */
  function Check(tokens: Tokens, key: Key, now: int): (Tokens, Option<string>) {
    if key in tokens && tokens[key].ttl >= now then (tokens, Some(tokens[key].token))
    else (tokens - {key}, None)
  }

  function StoreToken(tokens: Tokens, key: Key, reply: TokenReply, now: int): Tokens {
    tokens[key := CachedToken(reply.token, now + (reply.expiresIn - MARGIN) * SECOND)]
  }

  // Many requests.

  /** A request on a key: before the check, with a cached token, waiting for the challenge's token, or with a
      token of its own. Direct has no key and is passed through. */
  datatype Request =
    | Direct
    | Begun(key: Key)
    | Attached(key: Key, cached: string, checkedAt: int)
    | Unauthenticated(key: Key)
    | AskingToken(key: Key)
    | HaveToken(key: Key, reply: TokenReply)
    | Own(key: Key, own: string)
    | PassedOn      // the upstream's first answer goes back as it is
    | NoToken       // the challenge was not answered with a token

  /** A token obtained in answer to a challenge on key, and the clock when it was stored. */
  datatype Issue = Issue(key: Key, reply: TokenReply, storedAt: int)

  datatype State = State(now: int, tokens: Tokens, requests: map<nat, Request>, issued: seq<Issue>)

  datatype Step =
    | Tick(elapsed: nat)
    | Begin(id: nat, key: Option<Key>)
    | CheckCache(id: nat)
    | Answered(id: nat, challenge: bool)          // the upstream's answer; a complete Bearer challenge or not
    | TokenAnswer(id: nat, reply: Option<TokenReply>)
    | Keep(id: nat)

  function Apply(s: State, step: Step): State {
    match step
    case Tick(elapsed) => s.(now := s.now + elapsed)
    case Begin(id, key) =>
      if id in s.requests then s
      else s.(requests := s.requests[id := if key.Some? then Begun(key.value) else Direct])
    case CheckCache(id) =>
      if id in s.requests && s.requests[id].Begun? then
        var key := s.requests[id].key;
        var (tokens, r) := Check(s.tokens, key, s.now);
        s.(tokens := tokens,
           requests := s.requests[id := if r.Some? then Attached(key, r.value, s.now) else Unauthenticated(key)])
      else s
    case Answered(id, challenge) =>
      if id in s.requests && s.requests[id].Unauthenticated? then
        s.(requests := s.requests[id := if challenge then AskingToken(s.requests[id].key) else PassedOn])
      else s
    case TokenAnswer(id, reply) =>
      if id in s.requests && s.requests[id].AskingToken? then
        s.(requests := s.requests[id :=
          if reply.None? || reply.value.token == "" then NoToken else HaveToken(s.requests[id].key, reply.value)])
      else s
    case Keep(id) =>
      if id in s.requests && s.requests[id].HaveToken? then
        var HaveToken(key, reply) := s.requests[id];
        s.(tokens := StoreToken(s.tokens, key, reply, s.now),
           requests := s.requests[id := Own(key, reply.token)],
           issued := s.issued + [Issue(key, reply, s.now)])
      else s
  }

  function Run(s: State, steps: seq<Step>): State
    decreases |steps|
  {
    if steps == [] then s else Run(Apply(s, steps[0]), steps[1..])
  }

  /** The token was issued for the key, was stored before the check, and had at least the margin left then. */
  ghost predicate Justified(issued: seq<Issue>, key: Key, token: string, at: int) {
    exists i :: 0 <= i < |issued| && JustifiedBy(issued[i], key, token, at)
  }

  ghost predicate JustifiedBy(issue: Issue, key: Key, token: string, at: int) {
    issue.key == key && issue.reply.token == token && issue.storedAt <= at <= issue.storedAt + (issue.reply.expiresIn - 10) * 1_000_000_000
  }

  ghost predicate Backed(issued: seq<Issue>, key: Key, t: CachedToken, now: int) {
    exists i :: 0 <= i < |issued| && BackedBy(issued[i], key, t, now)
  }

  ghost predicate BackedBy(issue: Issue, key: Key, t: CachedToken, now: int) {
    issue.key == key && issue.reply.token == t.token && issue.storedAt <= now
    && t.ttl == issue.storedAt + (issue.reply.expiresIn - MARGIN) * SECOND
  }

  ghost predicate Inv(s: State) {
    && (forall key :: key in s.tokens ==> Backed(s.issued, key, s.tokens[key], s.now))
    && (forall id :: id in s.requests && s.requests[id].Attached? ==>
          Justified(s.issued, s.requests[id].key, s.requests[id].cached, s.requests[id].checkedAt))
  }

  lemma ApplyInv(s: State, step: Step)
    requires Inv(s)
    ensures Inv(Apply(s, step))
  {
    var t := Apply(s, step);
    forall key | key in t.tokens
      ensures Backed(t.issued, key, t.tokens[key], t.now)
    {
      if key in s.tokens && t.tokens[key] == s.tokens[key] {
        var i :| 0 <= i < |s.issued| && BackedBy(s.issued[i], key, s.tokens[key], s.now);
        assert BackedBy(t.issued[i], key, t.tokens[key], t.now);
      } else {
        assert BackedBy(t.issued[|s.issued|], key, t.tokens[key], t.now);
      }
    }
    forall id | id in t.requests && t.requests[id].Attached?
      ensures Justified(t.issued, t.requests[id].key, t.requests[id].cached, t.requests[id].checkedAt)
    {
      var Attached(key, token, at) := t.requests[id];
      if id in s.requests && s.requests[id] == t.requests[id] {
        var i :| 0 <= i < |s.issued| && JustifiedBy(s.issued[i], key, token, at);
        assert JustifiedBy(t.issued[i], key, token, at);
      } else {
        var i :| 0 <= i < |s.issued| && BackedBy(s.issued[i], key, s.tokens[key], s.now);
        assert JustifiedBy(t.issued[i], key, token, at);
      }
    }
  }

  lemma {:induction false} RunInv(s: State, steps: seq<Step>)
    requires Inv(s)
    ensures Inv(Run(s, steps))
    decreases |steps|
  {
    if steps != [] {
      ApplyInv(s, steps[0]);
      RunInv(Apply(s, steps[0]), steps[1..]);
    }
  }

  /** Over any interleaving and any clock that does not run backwards: a cached token is attached only to a
      request on the key whose challenge it answered, and its expiry was checked no later than its stated
      lifetime, less the margin, after it was stored. The request is sent at some time after the check. */
  lemma AttachedIsValid(now: int, steps: seq<Step>, id: nat)
    requires
      var t := Run(State(now, map[], map[], []), steps);
      id in t.requests && t.requests[id].Attached?
    ensures
      var t := Run(State(now, map[], map[], []), steps);
      Justified(t.issued, t.requests[id].key, t.requests[id].cached, t.requests[id].checkedAt)
  {
    RunInv(State(now, map[], map[], []), steps);
  }

  /** So a token whose stated lifetime is below the margin is never reused, and one whose lifetime is the
      margin only while the clock has not moved since it was stored. */
  lemma ReusedHadLifetime(now: int, steps: seq<Step>, id: nat)
    requires
      var t := Run(State(now, map[], map[], []), steps);
      id in t.requests && t.requests[id].Attached?
    ensures
      var t := Run(State(now, map[], map[], []), steps);
      exists i :: 0 <= i < |t.issued|
        && t.issued[i].key == t.requests[id].key && t.issued[i].reply.token == t.requests[id].cached
        && t.issued[i].reply.expiresIn >= 10
        && (t.issued[i].reply.expiresIn == 10 ==> t.issued[i].storedAt == t.requests[id].checkedAt)
  {
    AttachedIsValid(now, steps, id);
    var t := Run(State(now, map[], map[], []), steps);
    var i :| 0 <= i < |t.issued| && JustifiedBy(t.issued[i], t.requests[id].key, t.requests[id].cached, t.requests[id].checkedAt);
  }

  // Reuse.

  /** No step of the run stores another token for the key. */
  ghost predicate Undisturbed(s: State, steps: seq<Step>, key: Key)
    decreases |steps|
  {
    steps == [] ||
    (&& !(steps[0].Keep? && steps[0].id in s.requests && s.requests[steps[0].id].HaveToken?
          && s.requests[steps[0].id].key == key)
     && Undisturbed(Apply(s, steps[0]), steps[1..], key))
  }

  lemma {:induction false} ClockAdvances(s: State, steps: seq<Step>)
    ensures s.now <= Run(s, steps).now
    decreases |steps|
  {
    if steps != [] {
      ClockAdvances(Apply(s, steps[0]), steps[1..]);
    }
  }

  /** A cached token stays until its time is over or another one replaces it. */
  lemma {:induction false} TokenStays(s: State, steps: seq<Step>, key: Key)
    requires key in s.tokens && Undisturbed(s, steps, key) && Run(s, steps).now <= s.tokens[key].ttl
    ensures var t := Run(s, steps); key in t.tokens && t.tokens[key] == s.tokens[key]
    decreases |steps|
  {
    if steps != [] {
      ClockAdvances(s, steps);
      TokenStays(Apply(s, steps[0]), steps[1..], key);
    }
  }

  /** Once stored, a token is attached to every request on its key whose check happens within its stated
      lifetime less ten seconds, whatever other requests do in between, unless they store a newer one. */
  lemma StoredIsReused(s: State, id: nat, steps: seq<Step>, other: nat)
    requires id in s.requests && s.requests[id].HaveToken?
    requires Undisturbed(Apply(s, Keep(id)), steps, s.requests[id].key)
    requires
      var HaveToken(key, reply) := s.requests[id];
      var t := Run(Apply(s, Keep(id)), steps);
      && t.now <= s.now + (reply.expiresIn - 10) * 1_000_000_000
      && other in t.requests && t.requests[other] == Begun(key)
    ensures
      var HaveToken(key, reply) := s.requests[id];
      var t := Run(Apply(s, Keep(id)), steps);
      Apply(t, CheckCache(other)) == t.(requests := t.requests[other := Attached(key, reply.token, t.now)])
  {
    var key := s.requests[id].key;
    TokenStays(Apply(s, Keep(id)), steps, key);
  }

  // One request.

  /** Its steps in order; those that do not fit, because it ended earlier, change nothing. */
  function Script(id: nat, key: Option<Key>, challenge: bool, elapsed: nat, reply: Option<TokenReply>): seq<Step> {
    [Begin(id, key), CheckCache(id), Answered(id, challenge), TokenAnswer(id, reply), Tick(elapsed), Keep(id)]
  }

  lemma RunScript(s: State, id: nat, key: Option<Key>, challenge: bool, elapsed: nat, reply: Option<TokenReply>)
    ensures Run(s, Script(id, key, challenge, elapsed, reply)) ==
      Apply(Apply(Apply(Apply(Apply(Apply(s, Begin(id, key)), CheckCache(id)), Answered(id, challenge)),
                              TokenAnswer(id, reply)), Tick(elapsed)), Keep(id))
  {
    var steps := Script(id, key, challenge, elapsed, reply);
    var s1 := Apply(s, steps[0]);
    var s2 := Apply(s1, steps[1]);
    var s3 := Apply(s2, steps[2]);
    var s4 := Apply(s3, steps[3]);
    var s5 := Apply(s4, steps[4]);
    assert Run(s, steps) == Run(s1, steps[1..]);
    assert Run(s1, steps[1..]) == Run(s2, steps[2..]) by { assert steps[1..][1..] == steps[2..]; }
    assert Run(s2, steps[2..]) == Run(s3, steps[3..]) by { assert steps[2..][1..] == steps[3..]; }
    assert Run(s3, steps[3..]) == Run(s4, steps[4..]) by { assert steps[3..][1..] == steps[4..]; }
    assert Run(s4, steps[4..]) == Run(s5, steps[5..]) by { assert steps[4..][1..] == steps[5..]; }
    assert Run(s5, steps[5..]) == Apply(s5, steps[5]) by { assert steps[5..][1..] == []; }
  }

  /** Where the steps of one request end: other requests are untouched, and the request and the cache depend on
      whether there was a usable token, a challenge, and a token in answer to it. */
  lemma ScriptEnds(s: State, id: nat, key: Option<Key>, challenge: bool, elapsed: nat, reply: Option<TokenReply>)
    requires id !in s.requests
    ensures
      var t := Run(s, Script(id, key, challenge, elapsed, reply));
      && id in t.requests && t.requests == s.requests[id := t.requests[id]]
      && match key
         case None => t.tokens == s.tokens && t.requests[id] == Direct
         case Some(k) =>
           var (checked, cached) := Check(s.tokens, k, s.now);
           if cached.Some? then t.tokens == checked && t.requests[id] == Attached(k, cached.value, s.now)
           else if !challenge then t.tokens == checked && t.requests[id] == PassedOn
           else if reply.None? || reply.value.token == "" then t.tokens == checked && t.requests[id] == NoToken
           else t.tokens == StoreToken(checked, k, reply.value, s.now + elapsed) && t.requests[id] == Own(k, reply.value.token)
  {
    RunScript(s, id, key, challenge, elapsed, reply);
  }

  /** What the caller gets from a request that has run to its end. */
  predicate Answers(r: Request, bearer: Option<string>, ok: bool) {
    match r
    case Direct => ok && bearer.None?
    case PassedOn => ok && bearer.None?
    case Attached(_, token, _) => ok && bearer == Some(token)
    case Own(_, token) => ok && bearer == Some(token)
    case NoToken => !ok && bearer.None?
    case _ => false
  }

  // The client.

  class Client {
    var tokens: Tokens

    constructor ()
      ensures tokens == map[]
    {
      tokens := map[];
    }

    method CheckCache(key: Key, now: int) returns (r: Option<string>)
      modifies this
      ensures (tokens, r) == Check(old(tokens), key, now)
      ensures r.Some? <==> key in old(tokens) && old(tokens)[key].ttl >= now
      ensures r.Some? ==> r.value == old(tokens)[key].token && tokens == old(tokens)
      ensures r.None? ==> tokens == old(tokens) - {key}
    {
      var ok := key in tokens;
      if !ok || tokens[key].ttl < now {
        tokens := tokens - {key};
        return None;
      }
      return Some(tokens[key].token);
    }

    /** RoundTrip while no other request takes a step: it leaves the cache as its six steps do from a state
        with these tokens and any other requests, and answers as its own request ends. The clock is read at
        the check and again when a new token is stored. */
    method RoundTrip(key: Option<Key>, checkedAt: int, challenge: bool, reply: Option<TokenReply>, storedAt: int, ghost s: State, ghost id: nat)
      returns (bearer: Option<string>, ok: bool)
      requires checkedAt <= storedAt
      requires s.tokens == tokens && s.now == checkedAt && id !in s.requests
      modifies this
      ensures
        var t := Run(s, Script(id, key, challenge, storedAt - checkedAt, reply));
        && tokens == t.tokens
        && id in t.requests && t.requests == s.requests[id := t.requests[id]]
        && Answers(t.requests[id], bearer, ok)
      // A token with time left is reused, and the cache stays as it is; without one the challenge decides.
      ensures key.None? ==> ok && bearer == None && tokens == old(tokens)
      ensures key.Some? && key.value in old(tokens) && old(tokens)[key.value].ttl >= checkedAt ==>
        ok && bearer == Some(old(tokens)[key.value].token) && tokens == old(tokens)
      ensures key.Some? && !(key.value in old(tokens) && old(tokens)[key.value].ttl >= checkedAt) ==>
        if challenge && reply.Some? && reply.value.token != "" then
          && ok && bearer == Some(reply.value.token)
          && tokens == old(tokens)[key.value :=
               CachedToken(reply.value.token, storedAt + (reply.value.expiresIn - 10) * 1_000_000_000)]
        else (ok <==> !challenge) && bearer == None && tokens == old(tokens) - {key.value}
    {
      ScriptEnds(s, id, key, challenge, storedAt - checkedAt, reply);
      if key.None? {
        return None, true;
      }
      var cached := CheckCache(key.value, checkedAt);
      if cached.Some? {
        return cached, true;
      }
      if !challenge {
        return None, true;
      }
      if reply.None? || reply.value.token == "" {
        return None, false;
      }
      tokens := tokens[key.value := CachedToken(reply.value.token, storedAt + (reply.value.expiresIn - MARGIN) * SECOND)];
      return Some(reply.value.token), true;
    }
  }
}
