/** The two review calls: what is asked, what a reply means, and under which key it is cached. */
module ReviewApi {
  import opened Wrappers
  import opened Text
  import opened Authorization

  datatype ReviewUser = ReviewUser(username: Option<string>, groups: Option<seq<string>>)

  /** The status fields either review may carry. */
  datatype ReviewStatus = ReviewStatus(authenticated: Option<bool>, user: Option<ReviewUser>, allowed: Option<bool>)

  datatype Body = NotJson | Json(status: Option<ReviewStatus>)

  datatype Reply = ConnectionFailed | Response(code: nat, body: Body)

  datatype ResourceSpec = ResourceSpec(
    namespace: string, verb: string, group: string, version: string, resource: string, subresource: string, name: string)

  datatype NonResourceSpec = NonResourceSpec(path: string, verb: string)

  /** What is posted: a token with its audiences, or one access question with its user. */
  datatype ReviewRequest =
    | TokenReview(token: string, audiences: seq<string>)
    | AccessReview(user: string, groups: seq<string>, resource: Option<ResourceSpec>, nonResource: Option<NonResourceSpec>)

  function AccessReviewOf(a: Attributes): ReviewRequest
  {
    AccessReview(
      a.user.name, a.user.groups,
      if a.resourceRequest
      then Some(ResourceSpec(a.namespace, a.verb, a.apiGroup, a.apiVersion, a.resource, a.subresource, a.name))
      else None,
      if a.resourceRequest then None else Some(NonResourceSpec(a.path, a.verb)))
  }

  /** The post is an access review that carries the record, field by field, and nothing of the other kind. */
  predicate CarriesRecord(post: ReviewRequest, a: Attributes)
  {
    && post.AccessReview?
    && post.user == a.user.name && post.groups == a.user.groups
    && (if a.resourceRequest then
          && post.nonResource.None? && post.resource.Some?
          && var spec := post.resource.value;
             && spec.namespace == a.namespace && spec.verb == a.verb && spec.group == a.apiGroup && spec.version == a.apiVersion
             && spec.resource == a.resource && spec.subresource == a.subresource && spec.name == a.name
        else
          && post.resource.None? && post.nonResource.Some?
          && post.nonResource.value.path == a.path && post.nonResource.value.verb == a.verb)
  }

  /** That is all there is to the post. */
  lemma PostCarriesRecord(post: ReviewRequest, a: Attributes)
    ensures post == AccessReviewOf(a) <==> CarriesRecord(post, a)
  {
  }

  datatype ReviewError = Unreachable | Rejected(code: nat) | Unreadable

  predicate IsServerError(code: nat)
  {
    500 <= code < 600
  }

  predicate IsSuccess(code: nat)
  {
    200 <= code < 300
  }

  /** Too many requests, or a server error. */
  predicate Retryable(r: Reply)
  {
    r.Response? && (r.code == 429 || IsServerError(r.code))
  }

  /** Another post is made after status 429 or any of class 5, and after nothing else. */
  lemma RetryableMeaning(r: Reply)
    ensures Retryable(r) <==> exists code, body :: r == Response(code, body) && (code == 429 || code / 100 == 5)
  {
    if r.Response? && (r.code == 429 || r.code / 100 == 5) {
      assert r == Response(r.code, r.body);
    }
  }

  function ReadStatus(r: Reply): Result<Option<ReviewStatus>, ReviewError>
  {
    match r
    case ConnectionFailed => Err(Unreachable)
    case Response(code, body) =>
      if !IsSuccess(code) then Err(Rejected(code))
      else match body case NotJson => Err(Unreadable) case Json(status) => Ok(status)
  }

  function TokenVerdict(r: Reply): Result<Option<Identity>, ReviewError>
  {
    match ReadStatus(r)
    case Err(e) => Err(e)
    case Ok(None) => Ok(None)
    case Ok(Some(status)) =>
      if status.authenticated != Some(true) || status.user.None? then Ok(None)
      else
        var user := status.user.value;
        match user.username
        case None => Ok(None)
        case Some(name) => Ok(Some(Identity(name, match user.groups case Some(g) => g case None => [])))
  }

  function AccessVerdict(r: Reply): Result<bool, ReviewError>
  {
    match ReadStatus(r)
    case Err(e) => Err(e)
    case Ok(None) => Ok(false)
    case Ok(Some(status)) => Ok(status.allowed == Some(true))
  }

  /** The status a usable reply carries. */
  predicate Reports(r: Reply, status: ReviewStatus)
  {
    r.Response? && r.code / 100 == 2 && r.body == Json(Some(status))
  }

  /** A user is identified only by a successful reply that says authenticated and names the user. */
  lemma TokenVerdictMeaning(r: Reply, user: Identity)
    ensures TokenVerdict(r) == Ok(Some(user)) <==>
              exists status ::
                && Reports(r, status) && status.authenticated == Some(true)
                && status.user.Some? && status.user.value.username == Some(user.name)
                && user.groups == (if status.user.value.groups.Some? then status.user.value.groups.value else [])
    ensures TokenVerdict(r).Err? <==> !(r.Response? && r.code / 100 == 2 && r.body.Json?)
  {
    if r.Response? && IsSuccess(r.code) && r.body.Json? && r.body.status.Some? {
      assert Reports(r, r.body.status.value);
    }
  }

  /** Access is allowed only by a successful reply that says so; silence denies. */
  lemma AccessVerdictMeaning(r: Reply)
    ensures AccessVerdict(r) == Ok(true) <==> exists status :: Reports(r, status) && status.allowed == Some(true)
    ensures AccessVerdict(r).Err? <==> !(r.Response? && r.code / 100 == 2 && r.body.Json?)
  {
    if r.Response? && IsSuccess(r.code) && r.body.Json? && r.body.status.Some? {
      assert Reports(r, r.body.status.value);
    }
  }

  // ---------------------------------------------------------------- the access cache key

  function AccessKey(a: Attributes): string
  {
    a.user.name + "|" + a.verb + "|" + a.namespace + "|" + a.apiGroup + "|" + a.apiVersion + "|" + a.resource + "|" + a.path
  }

  /** The fields the key is made of. */
  function KeyFields(a: Attributes): seq<string>
  {
    [a.user.name, a.verb, a.namespace, a.apiGroup, a.apiVersion, a.resource, a.path]
  }

  predicate PipeFree(a: Attributes)
  {
    AllFree(KeyFields(a), '|')
  }

  lemma AccessKeyIsJoin(a: Attributes)
    ensures AccessKey(a) == Join(KeyFields(a), "|")
  {
    var f := KeyFields(a);
    assert f[0..] == f;
    JoinFrom(f, 0);
    JoinFrom(f, 1);
    JoinFrom(f, 2);
    JoinFrom(f, 3);
    JoinFrom(f, 4);
    JoinFrom(f, 5);
    JoinFrom(f, 6);
    var p := "|";
    hide Join;
    var l1 := f[0] + p + f[1];
    var l2 := l1 + p + f[2];
    var l3 := l2 + p + f[3];
    var l4 := l3 + p + f[4];
    Regroup(f[0], p, f[1], p, Join(f[2..], p));
    Regroup(l1, p, f[2], p, Join(f[3..], p));
    Regroup(l2, p, f[3], p, Join(f[4..], p));
    Regroup(l3, p, f[4], p, Join(f[5..], p));
    Regroup(l4, p, f[5], p, Join(f[6..], p));
  }

  lemma JoinFrom(f: seq<string>, i: nat)
    requires i < |f|
    ensures Join(f[i..], "|") == if i + 1 < |f| then f[i] + "|" + Join(f[i + 1..], "|") else f[i]
  {
    assert f[i..][1..] == f[i + 1..];
  }

  /** Faithfulness: the key of a pipe-free record is shared only by records with the same seven fields. */
  lemma KeyIsFaithful(a: Attributes, b: Attributes)
    requires PipeFree(a)
    ensures AccessKey(a) == AccessKey(b) <==> KeyFields(a) == KeyFields(b)
  {
    AccessKeyIsJoin(a);
    AccessKeyIsJoin(b);
    hide AccessKey;
    SplitJoin(KeyFields(a), '|');
    JoinPartCount(KeyFields(b), '|');
    if AccessKey(a) == AccessKey(b) {
      SplitJoin(KeyFields(b), '|');
    }
  }

  /** No field of the key but the last one, the path, holds a pipe. */
  predicate PipeFreeButPath(a: Attributes)
  {
    AllFree(KeyFields(a)[..6], '|')
  }

  /** The path comes last, so among records whose other fields are pipe-free it may hold anything. */
  lemma KeyIsFaithfulForAnyPath(a: Attributes, b: Attributes)
    requires PipeFreeButPath(a) && PipeFreeButPath(b)
    ensures AccessKey(a) == AccessKey(b) <==> KeyFields(a) == KeyFields(b)
  {
    AccessKeyIsJoin(a);
    AccessKeyIsJoin(b);
    hide AccessKey;
    var fa, fb := KeyFields(a), KeyFields(b);
    SplitKey(fa);
    SplitKey(fb);
    if AccessKey(a) == AccessKey(b) {
      var parts := Split(AccessKey(a), '|');
      assert fa[..6] == parts[..6] == fb[..6];
      assert Split(fa[6], '|') == parts[6..] == Split(fb[6], '|');
      assert fa == fa[..6] + [fa[6]] && fb == fb[..6] + [fb[6]];
    }
  }

  lemma SplitKey(f: seq<string>)
    requires |f| == 7 && AllFree(f[..6], '|')
    ensures Split(Join(f, "|"), '|') == f[..6] + Split(f[6], '|')
    ensures Join(Split(f[6], '|'), "|") == f[6]
  {
    assert f == f[..6] + [f[6]];
    JoinConcat(f[..6], [f[6]], "|");
    SplitConcat(Join(f[..6], "|"), f[6], '|');
    SplitJoin(f[..6], '|');
    JoinSplit(f[6], '|');
  }

  /** The record with those seven key fields. */
  function WithKeyFields(a: Attributes, f: seq<string>): (b: Attributes)
    requires |f| == 7
    ensures KeyFields(b) == f
  {
    a.(user := Identity(f[0], a.user.groups), verb := f[1], namespace := f[2], apiGroup := f[3], apiVersion := f[4],
       resource := f[5], path := f[6])
  }

  /** Text of eight or more parts is the join of seven fields in two ways. */
  lemma TwoReadings(key: string) returns (early: seq<string>, late: seq<string>)
    requires |Split(key, '|')| >= 8
    ensures |early| == |late| == 7 && early != late && Join(early, "|") == Join(late, "|") == key
  {
    var parts := Split(key, '|');
    JoinSplit(key, '|');
    SplitPartsAreFree(key, '|');
    hide Split;
    var n := |parts| - 6;
    early, late := [Join(parts[..n], "|")] + parts[n..], parts[..6] + [Join(parts[6..], "|")];
    JoinHead(parts, n);
    JoinTail(parts, 6);
    FirstHoldsSeparator(parts[..n]);
    hide Join;
    assert early[0] != late[0];
  }

  /**
    A key in which some field holds a pipe can be read in another way: it has eight or more
    parts, which make seven fields in two ways, of which at most one is the record's own.
   */
  lemma OtherReading(a: Attributes) returns (b: Attributes)
    requires !PipeFree(a)
    ensures AccessKey(b) == AccessKey(a) && KeyFields(b) != KeyFields(a)
  {
    AccessKeyIsJoin(a);
    JoinPartCount(KeyFields(a), '|');
    hide AccessKey, Join, Split;
    var early, late := TwoReadings(AccessKey(a));
    b := WithKeyFields(a, if early != KeyFields(a) then early else late);
    AccessKeyIsJoin(b);
  }

  lemma FirstHoldsSeparator(parts: seq<string>)
    requires |parts| >= 2
    ensures !Free(Join(parts, "|"), '|')
  {
    assert Join(parts, "|")[|parts[0]|] == '|';
  }

  lemma JoinHead(parts: seq<string>, n: nat)
    requires 1 <= n < |parts|
    ensures Join([Join(parts[..n], "|")] + parts[n..], "|") == Join(parts, "|")
  {
    assert parts == parts[..n] + parts[n..];
    JoinConcat(parts[..n], parts[n..], "|");
    JoinConcat([Join(parts[..n], "|")], parts[n..], "|");
  }

  lemma JoinTail(parts: seq<string>, n: nat)
    requires 1 <= n < |parts|
    ensures Join(parts[..n] + [Join(parts[n..], "|")], "|") == Join(parts, "|")
  {
    assert parts == parts[..n] + parts[n..];
    JoinConcat(parts[..n], parts[n..], "|");
    JoinConcat(parts[..n], [Join(parts[n..], "|")], "|");
  }

  /** When the key stands for the record: no other fields give that key exactly when none of them holds a pipe. */
  lemma KeyIsFaithfulIffPipeFree(a: Attributes)
    ensures (forall b :: AccessKey(a) == AccessKey(b) ==> KeyFields(a) == KeyFields(b)) <==> PipeFree(a)
  {
    if PipeFree(a) {
      forall b
        ensures AccessKey(a) == AccessKey(b) ==> KeyFields(a) == KeyFields(b)
      {
        KeyIsFaithful(a, b);
      }
    } else {
      var b := OtherReading(a);
      hide AccessKey, KeyFields;
    }
  }

  /** The records agree on what a post carries and the key does not. */
  predicate SameUnkeyedFields(a: Attributes, b: Attributes)
  {
    && a.user.groups == b.user.groups && a.resourceRequest == b.resourceRequest
    && (a.resourceRequest ==> a.subresource == b.subresource && a.name == b.name)
  }

  /**
    What the key leaves to chance: a record that shares the key of a pipe-free one is reviewed
    by the same post exactly when groups and kind agree and, for resources, subresource and name.
   */
  lemma SameKeySameReview(a: Attributes, b: Attributes)
    requires PipeFree(a) && AccessKey(a) == AccessKey(b)
    ensures AccessReviewOf(a) == AccessReviewOf(b) <==> SameUnkeyedFields(a, b)
  {
    KeyIsFaithful(a, b);
    hide AccessKey;
    SameFields(a, b);
  }

  lemma SameFields(a: Attributes, b: Attributes)
    requires KeyFields(a) == KeyFields(b)
    ensures a.user.name == b.user.name && a.verb == b.verb && a.namespace == b.namespace && a.apiGroup == b.apiGroup
    ensures a.apiVersion == b.apiVersion && a.resource == b.resource && a.path == b.path
  {
    var fa, fb := KeyFields(a), KeyFields(b);
    assert fa[0] == fb[0] && fa[1] == fb[1] && fa[2] == fb[2] && fa[3] == fb[3];
    assert fa[4] == fb[4] && fa[5] == fb[5] && fa[6] == fb[6];
  }

  /** Conversely, one post serves several keys: resource records that differ in their path only. */
  lemma SameReviewOtherKey(a: Attributes, path: string)
    requires a.resourceRequest && path != a.path
    ensures AccessReviewOf(a) == AccessReviewOf(a.(path := path)) && AccessKey(a) != AccessKey(a.(path := path))
  {
    var b := a.(path := path);
    var front := a.user.name + "|" + a.verb + "|" + a.namespace + "|" + a.apiGroup + "|" + a.apiVersion + "|" + a.resource + "|";
    assert AccessKey(a) == front + a.path && AccessKey(b) == front + path;
    assert (front + a.path)[|front|..] == a.path && (front + path)[|front|..] == path;
  }
}
