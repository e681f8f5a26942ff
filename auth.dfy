/** The bearer-token gate (the authenticate middleware): the token is the
    second space-separated segment of the Authorization header; a missing or
    empty one is refused with 401, an unknown or expired one with 403, and
    otherwise the token's owner is bound to the request and the next handler
    runs. Time is the current instant in milliseconds. */
module Auth {
  import opened Common

  /** JavaScript's `s.split(sep)` for a one-character separator: the pieces
      between separators, empty ones included. */
  function Split(s: string, sep: char): (parts: seq<string>)
    ensures |parts| >= 1
    ensures forall i :: 0 <= i < |parts| ==> sep !in parts[i]
    ensures sep in s <==> |parts| >= 2
    decreases |s|
  {
    if s == [] then [[]]
    else
      var rest := Split(s[1..], sep);
      assert sep in s <==> s[0] == sep || sep in s[1..] by {
        assert s == [s[0]] + s[1..];
      }
      if s[0] == sep then [[]] + rest
      else [[s[0]] + rest[0]] + rest[1..]
  }

  /** `parts.join(sep)`: the inverse of Split. */
  function Join(parts: seq<string>, sep: char): string
    requires |parts| >= 1
    decreases |parts|
  {
    if |parts| == 1 then parts[0] else parts[0] + [sep] + Join(parts[1..], sep)
  }

  /** Joining the pieces gives back the header. */
  lemma {:induction false} JoinSplit(s: string, sep: char)
    ensures Join(Split(s, sep), sep) == s
    decreases |s|
  {
    if s != [] {
      var rest := Split(s[1..], sep);
      JoinSplit(s[1..], sep);
      if s[0] != sep {
        if |rest| == 1 {
          assert Join(Split(s, sep), sep) == [s[0]] + rest[0];
        } else {
          assert Split(s, sep)[1..] == rest[1..];
          assert Join(rest, sep) == rest[0] + [sep] + Join(rest[1..], sep);
        }
      }
      assert s == [s[0]] + s[1..];
    }
  }

  /** A piece free of separators followed by a separator splits off first. */
  lemma {:induction false} SplitCons(p: string, sep: char, t: string)
    requires sep !in p
    ensures Split(p + [sep] + t, sep) == [p] + Split(t, sep)
    decreases |p|
  {
    if p == [] {
      assert ([sep] + t)[1..] == t;
    } else {
      SplitCons(p[1..], sep, t);
      assert (p + [sep] + t)[1..] == p[1..] + [sep] + t;
      assert [p[0]] + p[1..] == p;
    }
  }

  /** A string free of separators is a single piece. */
  lemma {:induction false} SplitSingle(p: string, sep: char)
    requires sep !in p
    ensures Split(p, sep) == [p]
    decreases |p|
  {
    if p != [] {
      SplitSingle(p[1..], sep);
      assert [p[0]] + p[1..] == p;
    }
  }

  /** Splitting the join of separator-free pieces gives the pieces back. */
  lemma {:induction false} SplitJoin(parts: seq<string>, sep: char)
    requires |parts| >= 1
    requires forall i :: 0 <= i < |parts| ==> sep !in parts[i]
    ensures Split(Join(parts, sep), sep) == parts
    decreases |parts|
  {
    if |parts| == 1 {
      SplitSingle(parts[0], sep);
    } else {
      SplitJoin(parts[1..], sep);
      SplitCons(parts[0], sep, Join(parts[1..], sep));
      assert [parts[0]] + parts[1..] == parts;
    }
  }

  /** `authHeader && authHeader.split(' ')[1]`: None when there is no header
      or the header has no second segment. */
  function ExtractToken(header: Option<string>): (t: Option<string>)
    ensures t.Some? <==> header.Some? && ' ' in header.value
    ensures t.Some? ==> ' ' !in t.value
  {
    if header.None? then None
    else
      var parts := Split(header.value, ' ');
      if |parts| >= 2 then Some(parts[1]) else None
  }

  /** "Bearer t" yields t, and so does "Bearer t more". */
  lemma ExtractsBearerToken(scheme: string, token: string, rest: string)
    requires ' ' !in scheme && ' ' !in token
    ensures ExtractToken(Some(scheme + " " + token)) == Some(token)
    ensures ExtractToken(Some(scheme + " " + token + " " + rest)) == Some(token)
  {
    SplitCons(scheme, ' ', token);
    SplitSingle(token, ' ');
    SplitCons(scheme, ' ', token + " " + rest);
    SplitCons(token, ' ', rest);
    assert scheme + " " + token + " " + rest == scheme + [' '] + (token + " " + rest);
  }

  /** The first two pieces of a join, and what follows them. */
  lemma JoinFirstTwo(parts: seq<string>, sep: char)
    requires |parts| >= 2
    ensures Join(parts, sep) == parts[0] + [sep] + parts[1] + JoinTail(parts, sep)
  {
    if |parts| > 2 {
      assert parts[1..][1..] == parts[2..];
    }
  }

  /** What follows the second piece of a join: nothing, or a separator and the
      remaining pieces. */
  function JoinTail(parts: seq<string>, sep: char): string
    requires |parts| >= 2
  {
    if |parts| == 2 then [] else [sep] + Join(parts[2..], sep)
  }

  /** `header` is a separator-free scheme, one space, `token`, and then
      nothing or a further space. */
  predicate Segments(header: string, scheme: string, token: string, rest: string)
  {
    && ' ' !in scheme
    && header == scheme + [' '] + token + rest
    && (rest == [] || rest[0] == ' ')
  }

  /** Conversely, an extracted token is exactly the second segment. */
  lemma ExtractedTokenIsSecondSegment(header: string)
    requires ExtractToken(Some(header)).Some?
    ensures exists scheme: string, rest: string :: Segments(header, scheme, ExtractToken(Some(header)).value, rest)
  {
    var parts := Split(header, ' ');
    JoinSplit(header, ' ');
    JoinFirstTwo(parts, ' ');
    var scheme, t, rest := parts[0], parts[1], JoinTail(parts, ' ');
    assert t == ExtractToken(Some(header)).value;
    assert header == scheme + [' '] + t + rest;
    assert ' ' !in scheme;
    assert rest == [] || rest[0] == ' ';
    assert Segments(header, scheme, t, rest);
  }

  /** What the middleware decides: 401, 403, or pass with the populated user
      (None when the token's user document no longer exists). */
  datatype Verdict = Unauthorized | Forbidden | Pass(user: Option<UserId>)

  function Gate(header: Option<string>, tokens: map<string, TokenRecord>,
                users: map<UserId, User>, now: int): (v: Verdict)
    ensures v == Unauthorized <==> !Given(ExtractToken(header))
    ensures v.Pass? <==>
              && Given(ExtractToken(header))
              && ExtractToken(header).value in tokens
              && now <= tokens[ExtractToken(header).value].expiresAt
    ensures v.Pass? ==>
              var owner := tokens[ExtractToken(header).value].user;
              (v.user == Some(owner) <==> owner in users) && (v.user.None? <==> owner !in users)
  {
    var token := ExtractToken(header);
    if !Given(token) then Unauthorized
    else if token.value !in tokens || tokens[token.value].expiresAt < now then Forbidden
    else
      var owner := tokens[token.value].user;
      Pass(if owner in users then Some(owner) else None)
  }

  /** A missing header, a header without a second segment and an empty second
      segment ("Bearer ", "Bearer  x") are all refused with 401. */
  lemma GateRefusesMissingToken(header: Option<string>, tokens: map<string, TokenRecord>,
                                users: map<UserId, User>, now: int)
    requires header.None? || ' ' !in header.value || ExtractToken(header) == Some("")
    ensures Gate(header, tokens, users, now) == Unauthorized
  {
  }

  /** A token with no record is refused with 403. */
  lemma GateRefusesUnknownToken(header: Option<string>, tokens: map<string, TokenRecord>,
                                users: map<UserId, User>, now: int)
    requires Given(ExtractToken(header)) && ExtractToken(header).value !in tokens
    ensures Gate(header, tokens, users, now) == Forbidden
  {
  }

  /** The expiry test is strict: a known token passes exactly when it expires
      now or later. */
  lemma GateExpiry(header: Option<string>, tokens: map<string, TokenRecord>,
                   users: map<UserId, User>, now: int)
    requires Given(ExtractToken(header)) && ExtractToken(header).value in tokens
    ensures Gate(header, tokens, users, now).Pass? <==> now <= tokens[ExtractToken(header).value].expiresAt
    ensures tokens[ExtractToken(header).value].expiresAt == now ==> Gate(header, tokens, users, now).Pass?
  {
  }

  /** A live token presented as "Bearer t" binds its owner. */
  lemma GateAcceptsBearer(token: string, tokens: map<string, TokenRecord>,
                          users: map<UserId, User>, now: int)
    requires token != "" && ' ' !in token
    requires token in tokens && now <= tokens[token].expiresAt && tokens[token].user in users
    ensures Gate(Some("Bearer " + token), tokens, users, now) == Pass(Some(tokens[token].user))
  {
    ExtractsBearerToken("Bearer", token, "");
    assert "Bearer" + " " + token == "Bearer " + token;
  }

  /** The parts of an Express request the gate reads and writes. */
  class Request {
    const authorization: Option<string>
    var user: Option<UserId>
    var nextCalls: nat

    constructor (authorization: Option<string>)
      ensures this.authorization == authorization && user == None && nextCalls == 0
    {
      this.authorization := authorization;
      user := None;
      nextCalls := 0;
    }
  }

  /** authenticate: either sends a status (returned in `sent`) and leaves the
      request alone, or binds `req.user` and calls `next` once. */
  method Authenticate(req: Request, tokens: map<string, TokenRecord>,
                      users: map<UserId, User>, now: int) returns (sent: Option<nat>)
    modifies req
    ensures var v := Gate(req.authorization, tokens, users, now);
      && (v == Unauthorized ==> sent == Some(401))
      && (v == Forbidden ==> sent == Some(403))
      && (v.Pass? ==> sent == None && req.user == v.user && req.nextCalls == old(req.nextCalls) + 1)
      && (!v.Pass? ==> req.user == old(req.user) && req.nextCalls == old(req.nextCalls))
  {
    var token := ExtractToken(req.authorization);
    if !Given(token) {
      return Some(401);
    }
    if token.value !in tokens || tokens[token.value].expiresAt < now {
      return Some(403);
    }
    var owner := tokens[token.value].user;
    req.user := if owner in users then Some(owner) else None;
    req.nextCalls := req.nextCalls + 1;
    sent := None;
  }
}
