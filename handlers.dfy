/** The two proxy endpoints of the backend: `GET /api/commits/<owner>/<name>`
    (`get_commits`) and `GET /api/repo-info/<owner>/<name>` (`get_repo_info`).
    Each handler validates its input, builds the one request it sends to the
    GitHub REST API, and turns what comes back into an HTTP status and a body.
    The network is not modelled: what the upstream call produced (a reply, a
    timeout, another transport failure) is an input, and the request the handler
    would send is part of its result, so that "no request was sent" can be said. */
module Handlers {
  import opened Json
  import DateFormat

  const ApiBase: string := "https://api.github.com"

  /** The largest page size forwarded upstream. */
  const MaxPerPage: int := 100

  /** Characters kept of a commit hash in the short form. */
  const ShortShaLength: nat := 7

  // ------------------------------------------------------------ the exchange

  /** A GET request to the upstream API: its URL, query parameters and headers. */
  datatype UpstreamRequest = UpstreamRequest(url: string, params: map<string, int>, headers: map<string, string>)

  /** What the single upstream attempt produced. A reply whose body is not JSON
      has `body == None`. */
  datatype Upstream =
    | Timeout
    | TransportError
    | Reply(status: int, body: Option<Json>)

  datatype ErrorKind =
    | InvalidRepositoryFormat
    | RepositoryNotFound
    | RateLimited
    | UpstreamStatus(code: int)
    | UpstreamTimeout
    | ConnectionFailure
    | InternalFailure

  datatype Author = Author(name: Json, email: Json, avatarUrl: Json)

  /** One entry of the `commits` list sent to the front-end. */
  datatype CommitSummary = CommitSummary(
    sha: Json, fullSha: Json, message: Json, author: Author,
    date: Json, formattedDate: Json, url: Json)

  /** The success envelope of the commit listing. */
  datatype Envelope = Envelope(
    success: bool, repository: string, commits: seq<CommitSummary>,
    totalCommits: nat, page: int, perPage: int)

  /** The flat body of the repository-info endpoint. */
  datatype RepoSummary = RepoSummary(
    name: Json, fullName: Json, description: Json, language: Json,
    stars: Json, forks: Json, createdAt: Json, updatedAt: Json, url: Json)

  datatype Body =
    | Failure(kind: ErrorKind)
    | Commits(envelope: Envelope)
    | RepoInfo(info: RepoSummary)

  datatype Response = Response(status: int, body: Body)

  /** The request sent upstream, if any, and the response given to the client. */
  datatype Exchange = Exchange(sent: Option<UpstreamRequest>, response: Response)

  // ---------------------------------------------------------------- headers

  /** The headers of every upstream request; the access token, when configured
      and non-empty, is sent as `Authorization: token <token>`. */
  function Headers(token: Option<string>): (h: map<string, string>)
    ensures "Accept" in h && h["Accept"] == "application/vnd.github.v3+json"
    ensures "User-Agent" in h && h["User-Agent"] == "Git-Log-Analyzer"
    ensures "Authorization" in h <==> token.Some? && token.value != ""
    ensures "Authorization" in h ==> h["Authorization"] == "token " + token.value
    ensures h.Keys <= {"Accept", "User-Agent", "Authorization"}
  {
    var plain := map["Accept" := "application/vnd.github.v3+json", "User-Agent" := "Git-Log-Analyzer"];
    if token.Some? && token.value != "" then plain["Authorization" := "token " + token.value] else plain
  }

  // ---------------------------------------------------- identifier, paging

  /** `s.count(c)` */
  function Count(s: string, c: char): (n: nat)
    ensures n <= |s|
    ensures n == 0 <==> c !in s
  {
    if s == "" then 0 else (if s[0] == c then 1 else 0) + Count(s[1..], c)
  }

  /** The commit listing accepts `repo` unless `'/' not in repo or
      repo.count('/') != 1`. */
  predicate ValidIdentifier(repo: string) {
    '/' in repo && Count(repo, '/') == 1
  }

  lemma {:induction false} CountAppend(a: string, b: string, c: char)
    ensures Count(a + b, c) == Count(a, c) + Count(b, c)
  {
    if a == "" {
      assert a + b == b;
    } else {
      CountAppend(a[1..], b, c);
      assert (a + b)[0] == a[0] && (a + b)[1..] == a[1..] + b;
    }
  }

  /** Counting around one occurrence of `c`. */
  lemma CountAround(s: string, i: nat, c: char)
    requires i < |s| && s[i] == c
    ensures Count(s, c) == Count(s[..i], c) + 1 + Count(s[i + 1..], c)
  {
    assert s == s[..i] + [c] + s[i + 1..];
    CountAppend(s[..i] + [c], s[i + 1..], c);
    CountAppend(s[..i], [c], c);
    assert Count([c], c) == 1 by { assert [c][1..] == ""; }
  }

  /** An identifier is accepted exactly when it has one `/`, whatever surrounds
      it: the owner and name parts may be empty. */
  lemma ValidIdentifierIff(repo: string)
    ensures ValidIdentifier(repo) <==>
      exists i :: 0 <= i < |repo| && repo[i] == '/' && '/' !in repo[..i] && '/' !in repo[i + 1..]
  {
    if ValidIdentifier(repo) {
      var i :| 0 <= i < |repo| && repo[i] == '/';
      CountAround(repo, i, '/');
    }
    if exists i :: 0 <= i < |repo| && repo[i] == '/' && '/' !in repo[..i] && '/' !in repo[i + 1..] {
      var i :| 0 <= i < |repo| && repo[i] == '/' && '/' !in repo[..i] && '/' !in repo[i + 1..];
      CountAround(repo, i, '/');
    }
  }

  /** `owner/name` is accepted exactly when neither part contains `/`. */
  lemma OwnerNameAccepted(owner: string, name: string)
    ensures ValidIdentifier(owner + "/" + name) <==> '/' !in owner && '/' !in name
  {
    var repo := owner + "/" + name;
    assert repo[|owner|] == '/';
    assert repo[..|owner|] == owner && repo[|owner| + 1..] == name;
    CountAround(repo, |owner|, '/');
  }

  /** `/`, `a/` and `/a` pass validation; `ab` and `a/b/c` do not. */
  lemma EmptySegmentsAccepted()
    ensures ValidIdentifier("/") && ValidIdentifier("a/") && ValidIdentifier("/a")
    ensures !ValidIdentifier("ab") && !ValidIdentifier("a/b/c")
  {
    OwnerNameAccepted("", "");
    assert "" + "/" + "" == "/";
    OwnerNameAccepted("a", "");
    assert "a" + "/" + "" == "a/";
    OwnerNameAccepted("", "a");
    assert "" + "/" + "a" == "/a";
    OwnerNameAccepted("a", "b/c");
    assert "a" + "/" + "b/c" == "a/b/c";
    assert '/' in "b/c" by { assert "b/c"[1] == '/'; }
    assert Count("ab", '/') == 0;
  }

  /** `min(per_page, 100)`: at most 100, and a smaller request is kept as is,
      with no lower bound. */
  function ClampPerPage(requested: int): (r: int)
    ensures r <= MaxPerPage && r <= requested
    ensures r == requested || r == MaxPerPage
  {
    Min(requested, MaxPerPage)
  }

  // ------------------------------------------------------ commit reshaping

  /** `format_date(d)` on a decoded value: a string is formatted; any other value
      makes `.replace` raise inside the bare `except`, which returns it as is. */
  function FormattedDate(date: Json): Json {
    if date.JStr? then JStr(DateFormat.FormatDate(date.s)) else date
  }

  /** The summary of one upstream commit object, or `None` when building it
      raises (a missing key, a subscript on a non-object, a slice of a value
      that cannot be sliced). */
  function ShapeCommit(c: Json): Option<CommitSummary> {
    var sha := Get(c, "sha");
    var inner := Get(c, "commit");
    var account := Get(c, "author");
    var url := Get(c, "html_url");
    if sha.None? || inner.None? || account.None? || url.None? then None
    else
      var short := Prefix(sha.value, ShortShaLength);
      var message := Get(inner.value, "message");
      var who := Get(inner.value, "author");
      var avatar := if Truthy(account.value) then Get(account.value, "avatar_url") else Some(JNull);
      if short.None? || message.None? || who.None? || avatar.None? then None
      else
        var name := Get(who.value, "name");
        var email := Get(who.value, "email");
        var date := Get(who.value, "date");
        if name.None? || email.None? || date.None? then None
        else Some(CommitSummary(short.value, sha.value, message.value,
                                Author(name.value, email.value, avatar.value),
                                date.value, FormattedDate(date.value), url.value))
  }

  /** Every path the reshaping reads is present, and the hash can be sliced. */
  predicate CommitReadable(c: Json) {
    && Lookup(c, ["sha"]).Some? && (Lookup(c, ["sha"]).value.JStr? || Lookup(c, ["sha"]).value.JArr?)
    && Lookup(c, ["commit", "message"]).Some?
    && Lookup(c, ["commit", "author", "name"]).Some?
    && Lookup(c, ["commit", "author", "email"]).Some?
    && Lookup(c, ["commit", "author", "date"]).Some?
    && Lookup(c, ["html_url"]).Some?
    && Lookup(c, ["author"]).Some?
    && (Truthy(Lookup(c, ["author"]).value) ==> Lookup(c, ["author", "avatar_url"]).Some?)
  }

  /** The per-commit mapping: a summary is built exactly when every field it
      reads is there; the short hash is the first seven characters of the full
      one (all of it when shorter); name, e-mail and date always come from
      `commit.author`; the avatar is `null` when the linked account is (or is
      another false value) and the account's `avatar_url` otherwise. */
  lemma ShapeCommitSpec(c: Json)
    ensures ShapeCommit(c).Some? <==> CommitReadable(c)
    ensures ShapeCommit(c).Some? ==>
      var r := ShapeCommit(c).value;
      var full := Lookup(c, ["sha"]).value;
      var account := Lookup(c, ["author"]).value;
      && r.fullSha == full
      && (full.JStr? ==> r.sha.JStr? && r.sha.s <= full.s && |r.sha.s| == Min(7, |full.s|))
      && (full.JArr? ==> r.sha.JArr? && r.sha.items <= full.items && |r.sha.items| == Min(7, |full.items|))
      && r.message == Lookup(c, ["commit", "message"]).value
      && r.author.name == Lookup(c, ["commit", "author", "name"]).value
      && r.author.email == Lookup(c, ["commit", "author", "email"]).value
      && r.date == Lookup(c, ["commit", "author", "date"]).value
      && r.formattedDate == (if r.date.JStr? then JStr(DateFormat.FormatDate(r.date.s)) else r.date)
      && r.url == Lookup(c, ["html_url"]).value
      && (Truthy(account) ==> r.author.avatarUrl == Lookup(c, ["author", "avatar_url"]).value)
      && (!Truthy(account) ==> r.author.avatarUrl == JNull)
  {
    LookupOne(c, "sha");
    LookupOne(c, "html_url");
    LookupOne(c, "author");
    LookupTwo(c, "commit", "message");
    LookupTwo(c, "author", "avatar_url");
    LookupThree(c, "commit", "author", "name");
    LookupThree(c, "commit", "author", "email");
    LookupThree(c, "commit", "author", "date");
    if Get(c, "commit").Some? {
      var inner := Get(c, "commit").value;
      LookupTwo(inner, "author", "name");
      LookupTwo(inner, "author", "email");
      LookupTwo(inner, "author", "date");
    }
  }

  /** A commit object whose `author` account is `null` (a commit made with an
      e-mail linked to no account) gets a `null` avatar, and keeps the name and
      e-mail of its embedded author block. */
  lemma NullAccountNullAvatar(c: Json)
    requires CommitReadable(c) && Lookup(c, ["author"]) == Some(JNull)
    ensures ShapeCommit(c).Some?
    ensures ShapeCommit(c).value.author ==
      Author(Lookup(c, ["commit", "author", "name"]).value, Lookup(c, ["commit", "author", "email"]).value, JNull)
  {
    ShapeCommitSpec(c);
  }

  /** The reshaping of the whole list: all commits or none. */
  function ShapeAll(cs: seq<Json>): (r: Option<seq<CommitSummary>>)
    ensures r.Some? <==> forall i :: 0 <= i < |cs| ==> ShapeCommit(cs[i]).Some?
    ensures r.Some? ==> |r.value| == |cs| && forall i :: 0 <= i < |cs| ==> ShapeCommit(cs[i]) == Some(r.value[i])
  {
    if cs == [] then Some([])
    else match ShapeCommit(cs[0])
      case None => None
      case Some(first) =>
        match ShapeAll(cs[1..])
        case None => None
        case Some(rest) => Some([first] + rest)
  }

  /** The values `for commit in commits_data` visits. An array gives its items;
      an empty object or string gives none; a non-empty object or string gives
      strings, on which the first subscript raises, and any other value cannot
      be iterated: both are `None`. */
  function Elements(body: Json): (r: Option<seq<Json>>)
    ensures r.Some? <==> body.JArr? || body == JObj(map[]) || body == JStr("")
    ensures body.JArr? ==> r == Some(body.items)
    ensures !body.JArr? && r.Some? ==> r.value == []
  {
    match body
    case JArr(items) => Some(items)
    case JObj(m) => if m == map[] then Some([]) else None
    case JStr(s) => if s == "" then Some([]) else None
    case _ => None
  }

  // -------------------------------------------------------- commit listing

  function CommitsRequest(repo: string, perPage: int, page: int, token: Option<string>): UpstreamRequest {
    UpstreamRequest(ApiBase + "/repos/" + repo + "/commits",
                    map["per_page" := perPage, "page" := page], Headers(token))
  }

  /** What `get_commits` answers once the request has gone out. */
  function CommitsResponse(repo: string, perPage: int, page: int, upstream: Upstream): Response {
    match upstream
    case Timeout => Response(408, Failure(UpstreamTimeout))
    case TransportError => Response(500, Failure(ConnectionFailure))
    case Reply(status, body) =>
      if status == 404 then Response(404, Failure(RepositoryNotFound))
      else if status == 403 then Response(403, Failure(RateLimited))
      else if status != 200 then Response(status, Failure(UpstreamStatus(status)))
      else if body.None? then Response(500, Failure(ConnectionFailure))
      else match Elements(body.value)
        case None => Response(500, Failure(InternalFailure))
        case Some(items) =>
          match ShapeAll(items)
          case None => Response(500, Failure(InternalFailure))
          case Some(commits) =>
            Response(200, Commits(Envelope(true, repo, commits, |commits|, page, perPage)))
  }

  /** `get_commits` as a whole: validation, the clamp, then the request and
      what its outcome is mapped to. */
  function CommitsExchange(repo: string, requested: int, page: int, token: Option<string>, upstream: Upstream): Exchange {
    if !ValidIdentifier(repo) then Exchange(None, Response(400, Failure(InvalidRepositoryFormat)))
    else
      var perPage := ClampPerPage(requested);
      Exchange(Some(CommitsRequest(repo, perPage, page, token)), CommitsResponse(repo, perPage, page, upstream))
  }

  /** `get_commits`, step by step, building the commit list one entry at a time. */
  method GetCommits(repo: string, requested: int, page: int, token: Option<string>, upstream: Upstream)
    returns (ex: Exchange)
    ensures ex == CommitsExchange(repo, requested, page, token, upstream)
  {
    if !ValidIdentifier(repo) {
      return Exchange(None, Response(400, Failure(InvalidRepositoryFormat)));
    }
    var perPage := ClampPerPage(requested);
    var request := CommitsRequest(repo, perPage, page, token);
    if upstream.Timeout? {
      return Exchange(Some(request), Response(408, Failure(UpstreamTimeout)));
    }
    if upstream.TransportError? {
      return Exchange(Some(request), Response(500, Failure(ConnectionFailure)));
    }
    var status := upstream.status;
    if status == 404 {
      return Exchange(Some(request), Response(404, Failure(RepositoryNotFound)));
    }
    if status == 403 {
      return Exchange(Some(request), Response(403, Failure(RateLimited)));
    }
    if status != 200 {
      return Exchange(Some(request), Response(status, Failure(UpstreamStatus(status))));
    }
    if upstream.body.None? {
      return Exchange(Some(request), Response(500, Failure(ConnectionFailure)));
    }
    var data := Elements(upstream.body.value);
    if data.None? {
      return Exchange(Some(request), Response(500, Failure(InternalFailure)));
    }
    var items := data.value;
    var formatted: seq<CommitSummary> := [];
    for i := 0 to |items|
      invariant |formatted| == i
      invariant forall k :: 0 <= k < i ==> ShapeCommit(items[k]) == Some(formatted[k])
    {
      var info := ShapeCommit(items[i]);
      if info.None? {
        return Exchange(Some(request), Response(500, Failure(InternalFailure)));
      }
      formatted := formatted + [info.value];
    }
    var all := ShapeAll(items);
    assert all.Some? && |all.value| == |formatted|;
    assert forall k :: 0 <= k < |items| ==> all.value[k] == formatted[k];
    assert all.value == formatted;
    return Exchange(Some(request), Response(200, Commits(Envelope(true, repo, formatted, |formatted|, page, perPage))));
  }

  /** A rejected identifier is answered with 400 before anything is sent, so
      the answer does not depend on the upstream at all. */
  lemma RejectedBeforeUpstream(repo: string, requested: int, page: int, token: Option<string>, u1: Upstream, u2: Upstream)
    requires !ValidIdentifier(repo)
    ensures CommitsExchange(repo, requested, page, token, u1).sent == None
    ensures CommitsExchange(repo, requested, page, token, u1).response == Response(400, Failure(InvalidRepositoryFormat))
    ensures CommitsExchange(repo, requested, page, token, u1) == CommitsExchange(repo, requested, page, token, u2)
  {
  }

  /** An accepted identifier sends exactly one request, for `/repos/<repo>/commits`,
      with `per_page` clamped to 100, `page` forwarded unchanged and the
      common headers. */
  lemma AcceptedSendsRequest(repo: string, requested: int, page: int, token: Option<string>, upstream: Upstream)
    requires ValidIdentifier(repo)
    ensures var ex := CommitsExchange(repo, requested, page, token, upstream);
      && ex.sent.Some?
      && ex.sent.value.url == ApiBase + "/repos/" + repo + "/commits"
      && ex.sent.value.params.Keys == {"per_page", "page"}
      && ex.sent.value.params["per_page"] == ClampPerPage(requested)
      && ex.sent.value.params["page"] == page
      && ex.sent.value.headers == Headers(token)
  {
  }

  /** The status table of the commit listing. Every non-200 upstream status is
      forwarded as the response status, 404 and 403 with their own error kinds;
      a timeout is 408 and any other transport failure 500. */
  lemma CommitsStatusTable(repo: string, requested: int, page: int, token: Option<string>, upstream: Upstream)
    requires ValidIdentifier(repo)
    ensures var r := CommitsExchange(repo, requested, page, token, upstream).response;
      && (upstream == Timeout ==> r == Response(408, Failure(UpstreamTimeout)))
      && (upstream == TransportError ==> r == Response(500, Failure(ConnectionFailure)))
      && (upstream.Reply? && upstream.status != 200 ==> r.status == upstream.status && r.body.Failure?)
      && (upstream.Reply? && upstream.status == 404 ==> r.body == Failure(RepositoryNotFound))
      && (upstream.Reply? && upstream.status == 403 ==> r.body == Failure(RateLimited))
      && (upstream.Reply? && upstream.status !in {200, 403, 404} ==> r.body == Failure(UpstreamStatus(upstream.status)))
      && (upstream.Reply? && upstream.status == 200 ==> r.status in {200, 500})
      && (upstream == Reply(200, None) ==> r == Response(500, Failure(ConnectionFailure)))
      && (upstream.Reply? && upstream.status == 200 && upstream.body.Some? && Elements(upstream.body.value).None? ==>
            r == Response(500, Failure(InternalFailure)))
      && (upstream == Reply(200, Some(JObj(map[]))) || upstream == Reply(200, Some(JStr(""))) ==>
            r.status == 200 && r.body.Commits? && r.body.envelope.commits == [])
  {
  }

  /** A 200 answer carries the success envelope, and only a 200 upstream reply
      whose every commit could be reshaped leads to one; the envelope echoes the
      identifier, the page and the clamped page size, and its list has the
      length and the order of the upstream list. */
  lemma CommitsEnvelopeSpec(repo: string, requested: int, page: int, token: Option<string>, upstream: Upstream)
    ensures var r := CommitsExchange(repo, requested, page, token, upstream).response;
      r.status == 200 <==> r.body.Commits?
    ensures var r := CommitsExchange(repo, requested, page, token, upstream).response;
      r.status == 200 ==>
        && ValidIdentifier(repo)
        && upstream.Reply? && upstream.status == 200 && upstream.body.Some?
        && Elements(upstream.body.value).Some?
        && var items := Elements(upstream.body.value).value;
        && var env := r.body.envelope;
        && env.success
        && env.repository == repo
        && env.page == page
        && env.perPage == ClampPerPage(requested)
        && |env.commits| == |items| == env.totalCommits
        && forall i :: 0 <= i < |items| ==> ShapeCommit(items[i]) == Some(env.commits[i])
  {
  }

  /** A 200 reply whose list holds only readable commit objects is answered
      with the success envelope: one summary per commit, in the upstream order. */
  lemma ReadableReplyGivesEnvelope(repo: string, requested: int, page: int, token: Option<string>, body: Json, items: seq<Json>)
    requires ValidIdentifier(repo)
    requires Elements(body) == Some(items)
    requires forall i :: 0 <= i < |items| ==> CommitReadable(items[i])
    ensures var r := CommitsExchange(repo, requested, page, token, Reply(200, Some(body))).response;
      && r.status == 200
      && r.body.Commits?
      && r.body.envelope.success
      && r.body.envelope.repository == repo
      && r.body.envelope.page == page
      && r.body.envelope.perPage == ClampPerPage(requested)
      && |r.body.envelope.commits| == |items| == r.body.envelope.totalCommits
      && forall i :: 0 <= i < |items| ==> Some(r.body.envelope.commits[i]) == ShapeCommit(items[i])
  {
    forall i | 0 <= i < |items| ensures ShapeCommit(items[i]).Some? {
      ShapeCommitSpec(items[i]);
    }
  }

  /** A 200 reply whose commits cannot all be reshaped is a 500. */
  lemma UnreadableCommitIsInternal(repo: string, requested: int, page: int, token: Option<string>, items: seq<Json>, i: nat)
    requires ValidIdentifier(repo)
    requires i < |items| && !CommitReadable(items[i])
    ensures CommitsExchange(repo, requested, page, token, Reply(200, Some(JArr(items)))).response
      == Response(500, Failure(InternalFailure))
  {
    ShapeCommitSpec(items[i]);
  }

  // ------------------------------------------------------- repository info

  /** The nine renamed fields of the repository object, or `None` when one is
      missing or the body is not an object. */
  function Summarize(data: Json): Option<RepoSummary> {
    var name := Get(data, "name");
    var fullName := Get(data, "full_name");
    var description := Get(data, "description");
    var language := Get(data, "language");
    var stars := Get(data, "stargazers_count");
    var forks := Get(data, "forks_count");
    var createdAt := Get(data, "created_at");
    var updatedAt := Get(data, "updated_at");
    var url := Get(data, "html_url");
    if name.None? || fullName.None? || description.None? || language.None? || stars.None?
       || forks.None? || createdAt.None? || updatedAt.None? || url.None?
    then None
    else Some(RepoSummary(name.value, fullName.value, description.value, language.value,
                          stars.value, forks.value, createdAt.value, updatedAt.value, url.value))
  }

  const RepoKeys: set<string> := {"name", "full_name", "description", "language",
    "stargazers_count", "forks_count", "created_at", "updated_at", "html_url"}

  function RepoRequest(repo: string, token: Option<string>): UpstreamRequest {
    UpstreamRequest(ApiBase + "/repos/" + repo, map[], Headers(token))
  }

  /** What `get_repo_info` answers: any non-200 status is 404, and every raised
      failure, a timeout included, is 500. */
  function RepoInfoResponse(upstream: Upstream): Response {
    match upstream
    case Timeout => Response(500, Failure(InternalFailure))
    case TransportError => Response(500, Failure(InternalFailure))
    case Reply(status, body) =>
      if status != 200 then Response(404, Failure(RepositoryNotFound))
      else if body.None? then Response(500, Failure(InternalFailure))
      else match Summarize(body.value)
        case None => Response(500, Failure(InternalFailure))
        case Some(info) => Response(200, RepoInfo(info))
  }

  /** `get_repo_info`: no validation, one request for `/repos/<repo>`. */
  function RepoInfoExchange(repo: string, token: Option<string>, upstream: Upstream): Exchange {
    Exchange(Some(RepoRequest(repo, token)), RepoInfoResponse(upstream))
  }

  /** Repository info sends its request for every identifier, even one the
      commit listing rejects, and collapses every non-200 status to 404. */
  lemma RepoInfoStatus(repo: string, token: Option<string>, upstream: Upstream)
    ensures var ex := RepoInfoExchange(repo, token, upstream);
      && ex.sent == Some(UpstreamRequest(ApiBase + "/repos/" + repo, map[], Headers(token)))
      && ex.response.status in {200, 404, 500}
      && (upstream.Reply? && upstream.status != 200 ==> ex.response == Response(404, Failure(RepositoryNotFound)))
      && (!upstream.Reply? ==> ex.response == Response(500, Failure(InternalFailure)))
      && (upstream.Reply? && upstream.status == 200 ==> ex.response.status in {200, 500})
      && (upstream == Reply(200, None) ==> ex.response == Response(500, Failure(InternalFailure)))
      && (ex.response.status == 200 <==> ex.response.body.RepoInfo?)
  {
  }

  /** On a 200 reply the summary exists exactly when the body is an object with
      all nine keys, and it renames them one for one. */
  lemma RepoSummarySpec(data: Json)
    ensures RepoInfoResponse(Reply(200, Some(data))).status == 200 <==> data.JObj? && RepoKeys <= data.fields.Keys
    ensures RepoInfoResponse(Reply(200, Some(data))).status != 200 ==>
      RepoInfoResponse(Reply(200, Some(data))) == Response(500, Failure(InternalFailure))
    ensures RepoInfoResponse(Reply(200, Some(data))).status == 200 ==>
      var f := data.fields;
      RepoInfoResponse(Reply(200, Some(data))).body == RepoInfo(RepoSummary(
        f["name"], f["full_name"], f["description"], f["language"], f["stargazers_count"],
        f["forks_count"], f["created_at"], f["updated_at"], f["html_url"]))
  {
  }
}
