/**
  The OIDC authenticator: a cached key set that is refreshed when it is old or when a token
  names a key it does not hold, and the mapping from claims to an identity. Token parsing
  and signature checks are parameters.
 */
module Oidc {
  import opened Wrappers
  import opened Text
  import opened Authorization
  import opened Environment
  import opened Selections

  /** Seconds for which a key set is used. */
  const KEYS_TTL: real := 3600.0

  datatype Jwk = Jwk(kty: string, kid: Option<string>, n: Option<string>, e: Option<string>)

  datatype RsaKey = RsaKey(n: string, e: string)

  datatype TokenHeader = TokenHeader(algorithm: string, kid: Option<string>)

  datatype Claim = Text(text: string) | List(values: seq<Claim>) | Other

  type Claims = map<string, Claim>

  /** Cryptography: which components make a key, how a token's header reads, which tokens verify. */
  datatype Crypto = Crypto(
    usable: RsaKey -> bool,
    header: string -> Option<TokenHeader>,
    verify: (string, RsaKey, string) -> Option<Claims>)

  type KeySet = map<string, RsaKey>

  // ---------------------------------------------------------------- key sets

  /** A published entry that becomes a key. */
  predicate IsKey(crypto: Crypto, jwk: Jwk)
  {
    jwk.kty == "RSA" && jwk.kid.Some? && jwk.n.Some? && jwk.e.Some? && crypto.usable(RsaKey(jwk.n.value, jwk.e.value))
  }

  /** That is an RSA key with an identifier and both components, which cryptography accepts. */
  lemma IsKeyMeaning(crypto: Crypto, jwk: Jwk)
    ensures IsKey(crypto, jwk) <==>
              exists kid, n, e :: jwk == Jwk("RSA", Some(kid), Some(n), Some(e)) && crypto.usable(RsaKey(n, e))
  {
    if IsKey(crypto, jwk) {
      assert jwk == Jwk("RSA", Some(jwk.kid.value), Some(jwk.n.value), Some(jwk.e.value));
    }
  }

  /** The keys of a published set, by identifier; a later entry replaces an earlier one. */
  function KeysOf(crypto: Crypto, published: seq<Jwk>): KeySet
  {
    if published == [] then map[]
    else
      var last := published[|published| - 1];
      var keys := KeysOf(crypto, published[..|published| - 1]);
      if IsKey(crypto, last) then keys[last.kid.value := RsaKey(last.n.value, last.e.value)] else keys
  }

  /** `published` offers a usable key of that identifier at position `i`, the last one to do so. */
  predicate PublishesAt(crypto: Crypto, published: seq<Jwk>, kid: string, i: nat)
  {
    && i < |published| && IsKey(crypto, published[i]) && published[i].kid == Some(kid)
    && forall j | i < j < |published| && IsKey(crypto, published[j]) :: published[j].kid != Some(kid)
  }

  ghost predicate Publishes(crypto: Crypto, published: seq<Jwk>, kid: string)
  {
    exists i | 0 <= i < |published| :: IsKey(crypto, published[i]) && published[i].kid == Some(kid)
  }

  /** A key set holds exactly the identifiers published with a usable key, each with its last one. */
  lemma {:induction false} KeysOfIsExact(crypto: Crypto, published: seq<Jwk>, kid: string)
    ensures kid in KeysOf(crypto, published) <==> Publishes(crypto, published, kid)
    ensures kid in KeysOf(crypto, published) ==>
              exists i | 0 <= i < |published| ::
                && PublishesAt(crypto, published, kid, i)
                && KeysOf(crypto, published)[kid] == RsaKey(published[i].n.value, published[i].e.value)
  {
    if published != [] {
      var last := |published| - 1;
      var before := published[..last];
      KeysOfIsExact(crypto, before, kid);
      assert forall i | 0 <= i < last :: before[i] == published[i];
      if IsKey(crypto, published[last]) && published[last].kid == Some(kid) {
        assert PublishesAt(crypto, published, kid, last);
      } else if kid in KeysOf(crypto, before) {
        var i :| 0 <= i < |before| && PublishesAt(crypto, before, kid, i)
          && KeysOf(crypto, before)[kid] == RsaKey(before[i].n.value, before[i].e.value);
        assert published[i] == before[i];
        assert PublishesAt(crypto, published, kid, i);
      }
    }
  }

  // ---------------------------------------------------------------- claims

  /** `str::split_whitespace` */
  function Words(s: string): seq<string>
    decreases |s|
  {
    if s == "" then []
    else if IsWhitespace(s[0]) then Words(s[1..])
    else
      var w := FirstWord(s);
      [w] + Words(s[|w|..])
  }

  function FirstWord(s: string): (w: string)
    ensures w <= s
    ensures s != "" && !IsWhitespace(s[0]) ==> w != ""
  {
    if s == "" || IsWhitespace(s[0]) then "" else [s[0]] + FirstWord(s[1..])
  }

  function Texts(values: seq<Claim>): seq<string>
  {
    if values == [] then []
    else if values[0].Text? then [values[0].text] + Texts(values[1..])
    else Texts(values[1..])
  }

  function Prefixed(prefix: string, names: seq<string>): (r: seq<string>)
    ensures |r| == |names|
    ensures forall i | 0 <= i < |names| :: r[i] == prefix + names[i]
  {
    seq(|names|, i requires 0 <= i < |names| => prefix + names[i])
  }

  datatype Mapping = Mapping(usernameClaim: string, usernamePrefix: string, groupsClaim: string, groupsPrefix: string)

  function GroupNames(claims: Claims, m: Mapping): seq<string>
  {
    if m.groupsClaim !in claims then []
    else
      match claims[m.groupsClaim]
      case List(values) => Texts(values)
      case Text(text) => Words(text)
      case Other => []
  }

  /** The identity of verified claims; there is none unless the username claim is text. */
  function IdentityOf(claims: Claims, m: Mapping): Option<Identity>
  {
    if m.usernameClaim in claims && claims[m.usernameClaim].Text?
    then Some(Identity(m.usernamePrefix + claims[m.usernameClaim].text, Prefixed(m.groupsPrefix, GroupNames(claims, m))))
    else None
  }

  function TextOf(claim: Claim): Option<string>
  {
    match claim case Text(text) => Some(text) case List(_) => None case Other => None
  }

  /** The text elements of a list claim, all of them and in order. */
  lemma {:induction false} TextsAreAll(values: seq<Claim>)
    ensures IsSelection(values, Texts(values), TextOf)
  {
    hide IsSelection;
    if values == [] {
      SelectsNone(TextOf);
    } else {
      TextsAreAll(values[1..]);
      SelectsMore(values, Texts(values[1..]), TextOf);
    }
  }

  /** The groups a claim names: the texts of a list, the words of a text, and none otherwise. */
  ghost predicate NamesGroups(claims: Claims, claim: string, names: seq<string>)
  {
    if claim !in claims then names == []
    else
      match claims[claim]
      case List(values) => IsSelection(values, names, TextOf)
      case Text(text) => names == Words(text)
      case Other => names == []
  }

  /** The user is the username claim's text behind its prefix, with the groups the claims name behind theirs. */
  ghost predicate IdentifiedBy(claims: Claims, m: Mapping, user: Identity)
  {
    && m.usernameClaim in claims && claims[m.usernameClaim].Text?
    && user.name == m.usernamePrefix + claims[m.usernameClaim].text
    && exists names: seq<string> ::
         && NamesGroups(claims, m.groupsClaim, names) && |user.groups| == |names|
         && forall i | 0 <= i < |names| :: user.groups[i] == m.groupsPrefix + names[i]
  }

  lemma IdentityMeaning(claims: Claims, m: Mapping)
    ensures
      match IdentityOf(claims, m)
      case Some(user) => IdentifiedBy(claims, m, user)
      case None => m.usernameClaim !in claims || !claims[m.usernameClaim].Text?
  {
    hide IsSelection, Words, Texts;
    var names := GroupNames(claims, m);
    if m.groupsClaim in claims && claims[m.groupsClaim].List? {
      TextsAreAll(claims[m.groupsClaim].values);
    }
    assert NamesGroups(claims, m.groupsClaim, names);
  }

  /** Words are not empty and hold no whitespace. */
  lemma {:induction false} WordsAreWords(s: string)
    ensures forall i | 0 <= i < |Words(s)| ::
              Words(s)[i] != "" && forall j | 0 <= j < |Words(s)[i]| :: !IsWhitespace(Words(s)[i][j])
    decreases |s|
  {
    if s != "" {
      if IsWhitespace(s[0]) {
        WordsAreWords(s[1..]);
      } else {
        FirstWordIsAWord(s);
        WordsAreWords(s[|FirstWord(s)|..]);
      }
    }
  }

  lemma {:induction false} FirstWordIsAWord(s: string)
    ensures forall j | 0 <= j < |FirstWord(s)| :: !IsWhitespace(FirstWord(s)[j])
  {
    if s != "" && !IsWhitespace(s[0]) {
      FirstWordIsAWord(s[1..]);
    }
  }

  function NonWhitespace(s: string): string
  {
    if s == "" then "" else (if IsWhitespace(s[0]) then "" else [s[0]]) + NonWhitespace(s[1..])
  }

  /** Words lose nothing but whitespace, and keep the order. */
  lemma {:induction false} WordsKeepText(s: string)
    ensures Join(Words(s), "") == NonWhitespace(s)
    decreases |s|
  {
    if s != "" {
      if IsWhitespace(s[0]) {
        WordsKeepText(s[1..]);
        assert "" + NonWhitespace(s[1..]) == NonWhitespace(s[1..]);
      } else {
        var w := FirstWord(s);
        var tail := s[|w|..];
        WordsKeepText(tail);
        FirstWordKeepsText(s);
        assert ([w] + Words(tail))[1..] == Words(tail);
        assert Words(tail) == [] ==> w + Join(Words(tail), "") == w;
        assert w + "" + Join(Words(tail), "") == w + Join(Words(tail), "");
      }
    }
  }

  lemma {:induction false} FirstWordKeepsText(s: string)
    ensures NonWhitespace(s) == FirstWord(s) + NonWhitespace(s[|FirstWord(s)|..])
  {
    if s != "" && !IsWhitespace(s[0]) {
      FirstWordKeepsText(s[1..]);
      var w := FirstWord(s[1..]);
      assert FirstWord(s) == [s[0]] + w;
      assert s[1..][|w|..] == s[|w| + 1..];
      assert [s[0]] + (w + NonWhitespace(s[|w| + 1..])) == FirstWord(s) + NonWhitespace(s[|w| + 1..]);
    } else {
      assert FirstWord(s) == "" && s[0..] == s;
      assert "" + NonWhitespace(s) == NonWhitespace(s);
    }
  }

  /** Whitespace between two texts separates their words. */
  lemma {:induction false} WordsConcat(a: string, space: char, b: string)
    requires IsWhitespace(space)
    ensures Words(a + [space] + b) == Words(a) + Words(b)
    decreases |a|
  {
    hide IsWhitespace;
    var whole := a + [space] + b;
    if a == "" {
      assert whole[1..] == b;
    } else if IsWhitespace(a[0]) {
      assert whole[1..] == a[1..] + [space] + b;
      WordsConcat(a[1..], space, b);
    } else {
      var w := FirstWord(a);
      FirstWordStops(a, space, b);
      assert whole[|w|..] == a[|w|..] + [space] + b;
      WordsConcat(a[|w|..], space, b);
      assert [w] + (Words(a[|w|..]) + Words(b)) == ([w] + Words(a[|w|..])) + Words(b);
    }
  }

  lemma {:induction false} FirstWordStops(a: string, space: char, b: string)
    requires IsWhitespace(space)
    ensures FirstWord(a + [space] + b) == FirstWord(a)
  {
    hide IsWhitespace;
    if a != "" {
      FirstWordStops(a[1..], space, b);
      assert (a + [space] + b)[1..] == a[1..] + [space] + b;
    }
  }

  /** Text without whitespace is one word. */
  lemma WordsOfWord(w: string)
    requires w != "" && forall i | 0 <= i < |w| :: !IsWhitespace(w[i])
    ensures Words(w) == [w]
  {
    FirstWordOfWord(w);
    hide IsWhitespace;
    assert w[|w|..] == "";
  }

  lemma {:induction false} FirstWordOfWord(w: string)
    requires forall i | 0 <= i < |w| :: !IsWhitespace(w[i])
    ensures FirstWord(w) == w
  {
    hide IsWhitespace;
    if w != "" {
      FirstWordOfWord(w[1..]);
      assert [w[0]] + w[1..] == w;
    }
  }

  // ---------------------------------------------------------------- the authenticator

  /**
    What looking a key up promises, given the cache before and after, the fetches made and
    the time `at` of the lookup.
   */
  ghost predicate GoodFind(crypto: Crypto, kid: string, cached: Option<(real, KeySet)>, fetched: seq<Option<seq<Jwk>>>,
                           at: real, r: Result<Option<RsaKey>, ()>, after: Option<(real, KeySet)>)
  {
    var young := cached.Some? && at - cached.value.0 < 3600.0;
    // at most two refreshes, and one at most when the cache is fresh
    && |fetched| <= (if young then 1 else 2)
    // a fresh cached key is used as it is
    && (fetched == [] <==> young && kid in cached.value.1)
    && (fetched == [] ==> r == Ok(Some(cached.value.1[kid])))
    // otherwise a second refresh follows a first one that succeeded without the key
    && (!young ==> (|fetched| == 2 <==> fetched[0].Some? && !Publishes(crypto, fetched[0].value, kid)))
    // an error means a failed fetch
    && (r.Err? <==> exists i | 0 <= i < |fetched| :: fetched[i].None?)
    // rotation: a key that every set fetched now publishes is found, whatever was cached
    && ((forall i | 0 <= i < |fetched| :: fetched[i].Some? && Publishes(crypto, fetched[i].value, kid))
          ==> r.Ok? && r.value.Some?)
    // otherwise the last set fetched decides
    && (r.Ok? && fetched != [] ==>
          && fetched[|fetched| - 1].Some?
          && var keys := KeysOf(crypto, fetched[|fetched| - 1].value);
             && (r.value.Some? <==> kid in keys)
             && (r.value.Some? ==> r.value.value == keys[kid]))
    // the cache is left with the last set fetched, and is as it was if there is none
    && match if fetched == [] then None else if |fetched| == 2 && fetched[1].None? then fetched[0] else fetched[|fetched| - 1]
       case None => after == cached
       case Some(published) => after.Some? && after.value.0 >= at && after.value.1 == KeysOf(crypto, published)
  }

  /** What a token comes to, given the key found for it. */
  function TokenOutcome(crypto: Crypto, m: Mapping, token: string, algorithm: string, found: Result<Option<RsaKey>, ()>): Outcome
  {
    match found
    case Err(_) => Error
    case Ok(None) => NotAuthenticated
    case Ok(Some(key)) =>
      match crypto.verify(token, key, algorithm)
      case None => Error
      case Some(claims) => match IdentityOf(claims, m) case Some(user) => Authenticated(user) case None => Error
  }

  datatype Outcome = Error | NotAuthenticated | Authenticated(user: Identity)

  function OutcomeAnswer(o: Outcome): Answer
  {
    match o
    case Error => Failed
    case NotAuthenticated => Identified(None)
    case Authenticated(user) => Identified(Some(user))
  }

  /** What the pipeline is told of an outcome. */
  lemma OutcomeAnswerMeaning(o: Outcome)
    ensures OutcomeAnswer(o) == Failed <==> o == Error
    ensures OutcomeAnswer(o) == Identified(None) <==> o == NotAuthenticated
    ensures forall user :: OutcomeAnswer(o) == Identified(Some(user)) <==> o == Authenticated(user)
  {
  }

  class OidcAuthenticator {
    const world: World
    const crypto: Crypto
    const mapping: Mapping
    const algorithms: seq<string>
    var cache: Option<(real, KeySet)>
    /** What each fetch from the issuer returned, `None` when it failed. */
    ghost var fetches: seq<Option<seq<Jwk>>>

    constructor (world: World, crypto: Crypto, mapping: Mapping, algorithms: seq<string>)
      ensures this.world == world && this.crypto == crypto && this.mapping == mapping && this.algorithms == algorithms
      ensures cache == None && fetches == []
    {
      this.world := world;
      this.crypto := crypto;
      this.mapping := mapping;
      this.algorithms := algorithms;
      this.cache := None;
      this.fetches := [];
    }

    ghost predicate CacheNotInFuture()
      reads this, world
    {
      cache.Some? ==> cache.value.0 <= world.time
    }

    /** Discovery and download of the issuer's key set. */
    method Fetch() returns (published: Option<seq<Jwk>>)
      modifies world`time, this`fetches
      ensures world.time >= old(world.time) && fetches == old(fetches) + [published]
    {
      var _ := world.Now();
      published := *;
      fetches := fetches + [published];
    }

    /** The cached key set while it is young enough, unless forced; else a newly fetched one. */
    method Jwks(force: bool) returns (r: Option<KeySet>, ghost at: real)
      requires CacheNotInFuture()
      modifies world`time, this`fetches, this`cache
      ensures CacheNotInFuture() && old(world.time) <= at <= world.time
      ensures
        if !force && old(cache).Some? && at - old(cache).value.0 < 3600.0 then
          r == Some(old(cache).value.1) && cache == old(cache) && fetches == old(fetches)
        else
          && |fetches| == |old(fetches)| + 1 && old(fetches) <= fetches
          && match fetches[|old(fetches)|]
             case None => r == None && cache == old(cache)
             case Some(published) => r == Some(KeysOf(crypto, published)) && cache == Some((world.time, r.value))
    {
      at := world.time;
      if !force && cache.Some? {
        var now := world.Now();
        at := now;
        if now - cache.value.0 < KEYS_TTL {
          return Some(cache.value.1), at;
        }
      }
      var published := Fetch();
      if published.None? {
        return None, at;
      }
      var keys := KeysOf(crypto, published.value);
      var now := world.Now();
      cache := Some((now, keys));
      r := Some(keys);
    }

    /** Finds the key a token names, refreshing the key set when it is missing. */
    method FindKey(kid: string) returns (r: Result<Option<RsaKey>, ()>, ghost at: real)
      requires CacheNotInFuture()
      modifies world`time, this`fetches, this`cache
      ensures CacheNotInFuture() && old(world.time) <= at <= world.time
      ensures old(fetches) <= fetches
      ensures GoodFind(crypto, kid, old(cache), fetches[|old(fetches)|..], at, r, cache)
    {
      var keys, t := Jwks(false);
      at := t;
      if keys.None? {
        return Err(()), at;
      }
      ghost var fetched := fetches;
      if |fetched| > |old(fetches)| {
        KeysOfIsExact(crypto, fetched[|old(fetches)|].value, kid);
      }
      if kid !in keys.value {
        keys, t := Jwks(true);
        if keys.None? {
          assert fetches[|old(fetches)|..][|fetched| - |old(fetches)|].None?;
          return Err(()), at;
        }
      }
      if kid in keys.value {
        r := Ok(Some(keys.value[kid]));
      } else {
        r := Ok(None);
      }
      if |fetches| > |old(fetches)| {
        KeysOfIsExact(crypto, fetches[|fetches| - 1].value, kid);
      }
    }

    /** Authenticates a bearer token, from its header to the identity of its claims. */
    method AuthenticateToken(token: string) returns (o: Outcome, ghost found: Result<Option<RsaKey>, ()>, ghost at: real)
      requires CacheNotInFuture()
      modifies world, this`fetches, this`cache
      ensures CacheNotInFuture() && old(world.time) <= at <= world.time
      ensures world.exchanges == old(world.exchanges) + [Exchange(OidcQuestion(token), OutcomeAnswer(o))]
      ensures old(fetches) <= fetches
      ensures
        match crypto.header(token)
        case None => o == Error && fetches == old(fetches)
        case Some(header) =>
          if header.algorithm !in algorithms then o == NotAuthenticated && fetches == old(fetches)
          else if header.kid.None? then o == Error && fetches == old(fetches)
          else
            && GoodFind(crypto, header.kid.value, old(cache), fetches[|old(fetches)|..], at, found, cache)
            && o == TokenOutcome(crypto, mapping, token, header.algorithm, found)
      ensures o.Authenticated? ==>
                && crypto.header(token).Some? && found.Ok? && found.value.Some?
                && var claims := crypto.verify(token, found.value.value, crypto.header(token).value.algorithm);
                   claims.Some? && IdentifiedBy(claims.value, mapping, o.user)
    {
      hide IdentityOf, IdentifiedBy;
      found, at := Err(()), world.time;
      o := Error;
      var header := crypto.header(token);
      if header.Some? {
        if header.value.algorithm !in algorithms {
          o := NotAuthenticated;
        } else if header.value.kid.Some? {
          var key, t := FindKey(header.value.kid.value);
          found, at := key, t;
          if key == Ok(None) {
            o := NotAuthenticated;
          } else if key.Ok? {
            var claims := crypto.verify(token, key.value.value, header.value.algorithm);
            if claims.Some? {
              var user := IdentityOf(claims.value, mapping);
              IdentityMeaning(claims.value, mapping);
              if user.Some? {
                o := Authenticated(user.value);
              }
            }
          }
        }
      }
      world.exchanges := world.exchanges + [Exchange(OidcQuestion(token), OutcomeAnswer(o))];
    }
  }
}
