/** The connection-string parser and printer of PoolFactory. */
module MongoUri {
  import opened Wrappers
  import opened Text

  /** The parts of a configuration that a connection string carries. */
  datatype Uri = Uri(
    protocol: string, username: string, password: string, database: string,
    hosts: set<string>, query: map<string, string>)

  // Scanning

  /** The length of the longest prefix without a character of `stop`. */
  function Span(s: string, stop: set<char>): (n: nat)
    ensures n <= |s|
    ensures forall i :: 0 <= i < n ==> s[i] !in stop
    ensures n < |s| ==> s[n] in stop
  {
    if s == "" || s[0] in stop then 0 else 1 + Span(s[1..], stop)
  }

  predicate StartsWith(s: string, c: char) {
    s != "" && s[0] == c
  }

  // What each regular expression matches at the front of a string

  const PLAIN := "mongodb://"
  const SRV := "mongodb+srv://"

  function MatchProtocol(s: string): string {
    if PLAIN <= s then PLAIN else if SRV <= s then SRV else ""
  }

  datatype UserInfo = UserInfo(username: string, password: string, rest: string)

  /** Optional "user:password@". */
  function MatchUserInfo(s: string): (r: Option<UserInfo>)
    ensures r.Some? ==> |r.value.rest| < |s|
  {
    var n := Span(s, {':', '@'});
    if n < |s| && s[n] == ':' then
      var t := s[n + 1..];
      var m := Span(t, {'@'});
      if m < |t| then Some(UserInfo(s[..n], t[..m], t[m + 1..])) else None
    else None
  }

  datatype Match = Match(text: string, rest: string)

  /** Host name, optional port. */
  function MatchName(t: string): (r: Option<Match>)
    ensures r.Some? ==> |r.value.rest| < |t|
  {
    var n := Span(t, {':', ',', '/'});
    if n == 0 then None
    else
      var d := if StartsWith(t[n..], ':') then DigitSpan(t[n + 1..]) else 0;
      var end := if d > 0 then n + 1 + d else n;
      Some(Match(t[..end], t[end..]))
  }

  /** Optional comma, host name, optional port. */
  function MatchHost(s: string): (r: Option<Match>)
    ensures r.Some? ==> |r.value.rest| < |s|
  {
    MatchName(if StartsWith(s, ',') then s[1..] else s)
  }

  /** Slash, database name, optional question mark; an empty match where there is no slash. */
  function MatchDatabase(s: string): (r: Match)
    ensures |r.rest| <= |s|
  {
    if !StartsWith(s, '/') then Match("", s)
    else
      var t := s[1..];
      var n := Span(t, {'?'});
      Match(t[..n], if n < |t| then t[n + 1..] else "")
  }

  datatype Pair = Pair(key: string, value: string, rest: string)

  /** Key, equals sign, value. */
  function MatchAssignment(t: string): (r: Option<Pair>)
    ensures r.Some? ==> |r.value.rest| < |t|
  {
    var n := Span(t, {'=', '&'});
    if n < |t| && t[n] == '=' then
      var v := t[n + 1..];
      var m := Span(v, {'&'});
      Some(Pair(t[..n], v[..m], v[m..]))
    else None
  }

  /** Optional ampersand, key, equals sign, value. */
  function MatchPair(s: string): (r: Option<Pair>)
    ensures r.Some? ==> |r.value.rest| < |s|
  {
    MatchAssignment(if StartsWith(s, '&') then s[1..] else s)
  }

  // The parser

  function ParseHosts(s: string): (r: (set<string>, string))
    decreases |s|
  {
    match MatchHost(s)
    case None => ({}, s)
    case Some(h) => var (hosts, rest) := ParseHosts(h.rest); ({h.text} + hosts, rest)
  }

  function ParsePairs(s: string): (r: seq<(string, string)>)
    decreases |s|
  {
    match MatchPair(s)
    case None => []
    case Some(p) => [(p.key, p.value)] + ParsePairs(p.rest)
  }

  /** Storing pairs in order; a later pair overwrites an earlier one with the same key. */
  function Store(pairs: seq<(string, string)>, query: map<string, string>): map<string, string>
    decreases |pairs|
  {
    if pairs == [] then query else Store(pairs[1..], query[pairs[0].0 := pairs[0].1])
  }

  function ParseFrom(protocol: string, info: UserInfo): Uri {
    var (hosts, rest) := ParseHosts(info.rest);
    var db := MatchDatabase(rest);
    Uri(if protocol == "" then PLAIN else protocol, info.username, info.password, db.text, hosts,
        Store(ParsePairs(db.rest), map[])["appName" := "Genny"])
  }

  function Parse(uri: string): Uri {
    var protocol := MatchProtocol(uri);
    var s := uri[|protocol|..];
    match MatchUserInfo(s)
    case None => ParseFrom(protocol, UserInfo("", "", s))
    case Some(info) => ParseFrom(protocol, info)
  }

  // The printer

  function HostsText(hosts: seq<string>): string {
    if hosts == [] then "" else if |hosts| == 1 then hosts[0] else hosts[0] + "," + HostsText(hosts[1..])
  }

  function QueryText(keys: seq<string>, query: map<string, string>): string
    requires forall k :: k in keys ==> k in query
  {
    if keys == [] then ""
    else keys[0] + ("=" + (query[keys[0]] + if |keys| == 1 then "" else "&" + QueryText(keys[1..], query)))
  }

  ghost predicate Enumerates(order: seq<string>, items: set<string>) {
    && (forall x :: x in items <==> x in order)
    && (forall i, j :: 0 <= i < j < |order| ==> order[i] != order[j])
  }

  function UserInfoText(u: Uri, redacted: bool): string {
    if u.username == "" then ""
    else u.username + ":" + (if redacted then "[REDACTED]" else u.password) + "@"
  }

  /** Everything after the user information; `hosts` and `keys` are the iteration orders of the two containers. */
  function Tail(u: Uri, hosts: seq<string>, keys: seq<string>): string
    requires Enumerates(keys, u.query.Keys)
  {
    HostsText(hosts) +
    (if u.database != "" || keys != [] then "/" + u.database else "") +
    (if keys != [] then "?" else "") +
    QueryText(keys, u.query)
  }

  function Print(u: Uri, hosts: seq<string>, keys: seq<string>, redacted: bool): string
    requires Enumerates(hosts, u.hosts) && Enumerates(keys, u.query.Keys)
  {
    u.protocol + UserInfoText(u, redacted) + Tail(u, hosts, keys)
  }

  // Well-formedness of the parts

  predicate Without(s: string, stop: set<char>) {
    forall i :: 0 <= i < |s| ==> s[i] !in stop
  }

  predicate IsPort(s: string) {
    |s| >= 2 && s[0] == ':' && forall i :: 1 <= i < |s| ==> IsDigit(s[i])
  }

  /** A host name, optionally with a port. */
  predicate HostOk(h: string) {
    var n := Span(h, {':', ',', '/'});
    n > 0 && (n == |h| || IsPort(h[n..]))
  }

  predicate PairOk(p: (string, string)) {
    Without(p.0, {'=', '&'}) && Without(p.1, {'&'})
  }

  /** The query options, with the application name every parsed configuration has. */
  predicate QueryOk(query: map<string, string>) {
    && (forall k :: k in query ==> PairOk((k, query[k])))
    && "appName" in query && query["appName"] == "Genny"
  }

  /** Each part is free of the delimiters that end it. */
  ghost predicate PartsOk(u: Uri) {
    && u.protocol in {PLAIN, SRV}
    && Without(u.username, {':', '@'}) && Without(u.password, {'@'}) && Without(u.database, {'?'})
    && (forall h :: h in u.hosts ==> HostOk(h))
    && QueryOk(u.query)
  }

  // Scanning printed text

  lemma {:induction false} SpanConcat(a: string, b: string, stop: set<char>)
    requires Without(a, stop) && (b == "" || b[0] in stop)
    ensures Span(a + b, stop) == |a|
  {
    if a == "" {
      assert a + b == b;
    } else {
      assert (a + b)[1..] == a[1..] + b;
      SpanConcat(a[1..], b, stop);
    }
  }

  lemma SplitAfterThree<T>(a: seq<T>, b: seq<T>, c: seq<T>, d: seq<T>)
    ensures (a + (b + (c + d)))[..|a| + |b| + |c|] == a + (b + c)
    ensures (a + (b + (c + d)))[|a| + |b| + |c|..] == d
  {
    assert a + (b + (c + d)) == (a + (b + c)) + d;
    DropFirst(a + (b + c), d);
  }

  lemma UserInfoMatches(user: string, password: string, rest: string)
    requires Without(user, {':', '@'}) && Without(password, {'@'})
    ensures MatchUserInfo(user + (":" + (password + ("@" + rest)))) == Some(UserInfo(user, password, rest))
  {
    hide Span, Without;
    var t := password + ("@" + rest);
    SpanConcat(user, ":" + t, {':', '@'});
    DropFirst(user, ":" + t);
    DropTwo(user, ":", t);
    SpanConcat(password, "@" + rest, {'@'});
    DropFirst(password, "@" + rest);
    DropTwo(password, "@", rest);
  }

  lemma BareNameMatches(h: string, rest: string)
    requires h != "" && Without(h, {':', ',', '/'}) && (rest == "" || rest[0] in {',', '/'})
    ensures MatchName(h + rest) == Some(Match(h, rest))
  {
    SpanConcat(h, rest, {':', ',', '/'});
    DropFirst(h, rest);
  }

  lemma PortNameMatches(name: string, digits: string, rest: string)
    requires name != "" && Without(name, {':', ',', '/'}) && (rest == "" || rest[0] in {',', '/'})
    requires digits != "" && forall i :: 0 <= i < |digits| ==> IsDigit(digits[i])
    ensures MatchName(name + (":" + (digits + rest))) == Some(Match(name + (":" + digits), rest))
  {
    hide Span, DigitSpan;
    SpanConcat(name, ":" + (digits + rest), {':', ',', '/'});
    DropFirst(name, ":" + (digits + rest));
    DropTwo(name, ":", digits + rest);
    DigitSpanConcat(digits, rest);
    SplitAfterThree(name, ":", digits, rest);
  }

  lemma SplitAtColon(h: string, n: nat)
    requires n < |h| && h[n] == ':'
    ensures h[..n] + (":" + h[n..][1..]) == h
  {
  }

  lemma JoinThree(a: string, b: string, c: string, d: string)
    ensures (a + (b + c)) + d == a + (b + (c + d))
  {
  }

  lemma NameMatches(h: string, rest: string)
    requires HostOk(h) && (rest == "" || rest[0] in {',', '/'})
    ensures MatchName(h + rest) == Some(Match(h, rest))
  {
    var n := Span(h, {':', ',', '/'});
    if n == |h| {
      BareNameMatches(h, rest);
    } else {
      var name, digits := h[..n], h[n..][1..];
      assert h[n..][0] == h[n];
      SplitAtColon(h, n);
      PortNameMatches(name, digits, rest);
      JoinThree(name, ":", digits, rest);
    }
  }

  /** A leading comma is skipped. */
  lemma CommaSkipped(comma: string, t: string)
    requires comma in {"", ","} && t != "" && t[0] != ','
    ensures MatchHost(comma + t) == MatchName(t)
  {
    if comma == "" {
      assert comma + t == t;
    } else {
      assert (comma + t)[1..] == t;
    }
  }

  lemma AssignmentMatches(k: string, v: string, rest: string)
    requires Without(k, {'=', '&'}) && Without(v, {'&'}) && (rest == "" || rest[0] == '&')
    ensures MatchAssignment(k + ("=" + (v + rest))) == Some(Pair(k, v, rest))
  {
    SpanConcat(k, "=" + (v + rest), {'=', '&'});
    DropFirst(k, "=" + (v + rest));
    DropTwo(k, "=", v + rest);
    SpanConcat(v, rest, {'&'});
    DropFirst(v, rest);
  }

  /** A leading ampersand is skipped. */
  lemma AmpersandSkipped(amp: string, t: string)
    requires amp in {"", "&"} && t != "" && t[0] != '&'
    ensures MatchPair(amp + t) == MatchAssignment(t)
  {
    if amp == "" {
      assert amp + t == t;
    } else {
      assert (amp + t)[1..] == t;
    }
  }

  function Members(xs: seq<string>): set<string> {
    set x | x in xs
  }

  function Selected(keys: seq<string>, query: map<string, string>): map<string, string>
    requires forall k :: k in keys ==> k in query
  {
    map k | k in keys :: query[k]
  }

  /** The printed host list with what follows it. */
  function HostsThen(hosts: seq<string>, rest: string): string {
    if hosts == [] then rest
    else hosts[0] + if |hosts| == 1 then rest else "," + HostsThen(hosts[1..], rest)
  }

  lemma {:induction false} HostsThenText(hosts: seq<string>, rest: string)
    ensures HostsText(hosts) + rest == HostsThen(hosts, rest)
  {
    if |hosts| > 1 {
      HostsThenText(hosts[1..], rest);
      assert hosts[0] + "," + HostsText(hosts[1..]) + rest == hosts[0] + ("," + (HostsText(hosts[1..]) + rest));
    }
  }

  lemma MembersUnfold(xs: seq<string>)
    requires xs != []
    ensures Members(xs) == {xs[0]} + Members(xs[1..])
  {
    assert xs == [xs[0]] + xs[1..];
  }

  /** Nothing, or a slash: where a list of hosts ends. */
  predicate EndsHosts(rest: string) {
    rest == "" || rest[0] == '/'
  }

  lemma NoHostAtEnd(rest: string)
    requires EndsHosts(rest)
    ensures ParseHosts(rest) == ({}, rest)
  {
    assert MatchHost(rest) == None;
  }

  /** One turn of the host loop. */
  lemma HostRead(comma: string, h: string, rest: string)
    requires comma in {"", ","} && HostOk(h) && (rest == "" || rest[0] in {',', '/'})
    ensures ParseHosts(comma + (h + rest)) == ({h} + ParseHosts(rest).0, ParseHosts(rest).1)
  {
    var t := h + rest;
    assert t[0] == h[0];
    NameMatches(h, rest);
    CommaSkipped(comma, t);
  }

  /** The host loop reads back the printed hosts and stops at the slash or the end. */
  lemma {:induction false} HostsRead(comma: string, hosts: seq<string>, rest: string)
    requires comma in {"", ","} && hosts != []
    requires (forall h :: h in hosts ==> HostOk(h)) && EndsHosts(rest)
    ensures ParseHosts(comma + HostsThen(hosts, rest)) == (Members(hosts), rest)
    decreases |hosts|
  {
    MembersUnfold(hosts);
    if |hosts| == 1 {
      NoHostAtEnd(rest);
      HostRead(comma, hosts[0], rest);
      assert Members(hosts[1..]) == {};
    } else {
      HostsRead(",", hosts[1..], rest);
      HostRead(comma, hosts[0], "," + HostsThen(hosts[1..], rest));
    }
  }

  function Listed(keys: seq<string>, query: map<string, string>): seq<(string, string)>
    requires forall k :: k in keys ==> k in query
  {
    if keys == [] then [] else [(keys[0], query[keys[0]])] + Listed(keys[1..], query)
  }

  lemma SelectedUnfolds(keys: seq<string>, query: map<string, string>, acc: map<string, string>)
    requires keys != [] && forall k :: k in keys ==> k in query
    ensures acc + Selected(keys, query) == acc[keys[0] := query[keys[0]]] + Selected(keys[1..], query)
  {
    assert keys == [keys[0]] + keys[1..];
    var left, right := acc + Selected(keys, query), acc[keys[0] := query[keys[0]]] + Selected(keys[1..], query);
    assert left.Keys == right.Keys;
  }

  lemma {:induction false} StoreListed(keys: seq<string>, query: map<string, string>, acc: map<string, string>)
    requires forall k :: k in keys ==> k in query
    ensures Store(Listed(keys, query), acc) == acc + Selected(keys, query)
    decreases |keys|
  {
    if keys == [] {
      assert Selected(keys, query) == map[];
    } else {
      var acc' := acc[keys[0] := query[keys[0]]];
      StoreListed(keys[1..], query, acc');
      SelectedUnfolds(keys, query, acc);
      assert Listed(keys, query)[1..] == Listed(keys[1..], query);
    }
  }

  lemma PairsStep(amp: string, t: string, p: Pair)
    requires amp in {"", "&"} && t != "" && t[0] != '&' && MatchAssignment(t) == Some(p)
    ensures ParsePairs(amp + t) == [(p.key, p.value)] + ParsePairs(p.rest)
  {
    AmpersandSkipped(amp, t);
  }

  /** One turn of the query loop. */
  lemma PairRead(amp: string, k: string, v: string, rest: string)
    requires amp in {"", "&"} && Without(k, {'=', '&'}) && Without(v, {'&'}) && (rest == "" || rest[0] == '&')
    ensures ParsePairs(amp + (k + ("=" + (v + rest)))) == [(k, v)] + ParsePairs(rest)
  {
    var t := k + ("=" + (v + rest));
    assert t[0] == if k == "" then '=' else k[0];
    AssignmentMatches(k, v, rest);
    PairsStep(amp, t, Pair(k, v, rest));
  }

  /** The query loop reads back the printed pairs. */
  lemma {:induction false} QueryRead(amp: string, keys: seq<string>, query: map<string, string>)
    requires forall k :: k in keys ==> k in query && PairOk((k, query[k]))
    requires amp in {"", "&"} && keys != []
    ensures ParsePairs(amp + QueryText(keys, query)) == Listed(keys, query)
    decreases |keys|
  {
    var k := keys[0];
    assert PairOk((k, query[k]));
    if |keys| == 1 {
      PairRead(amp, k, query[k], "");
      assert ParsePairs("") == [];
    } else {
      PairRead(amp, k, query[k], "&" + QueryText(keys[1..], query));
      QueryRead("&", keys[1..], query);
    }
  }

  // Round trips

  lemma TailText(u: Uri, hosts: seq<string>, keys: seq<string>)
    requires Enumerates(keys, u.query.Keys) && keys != []
    ensures Tail(u, hosts, keys) == HostsThen(hosts, "/" + (u.database + ("?" + QueryText(keys, u.query))))
  {
    var d, q := u.database, QueryText(keys, u.query);
    HostsThenText(hosts, "/" + (d + ("?" + q)));
    assert HostsText(hosts) + ("/" + d) + "?" + q == HostsText(hosts) + ("/" + (d + ("?" + q)));
  }

  lemma DatabaseMatches(d: string, rest: string)
    requires Without(d, {'?'})
    ensures MatchDatabase("/" + (d + ("?" + rest))) == Match(d, rest)
  {
    var t := d + ("?" + rest);
    assert ("/" + t)[1..] == t;
    SpanConcat(d, "?" + rest, {'?'});
    DropFirst(d, "?" + rest);
    DropTwo(d, "?", rest);
  }

  lemma QueryReadBack(u: Uri, keys: seq<string>)
    requires PartsOk(u) && Enumerates(keys, u.query.Keys)
    ensures keys != [] && ParsePairs(QueryText(keys, u.query)) == Listed(keys, u.query)
  {
    assert "appName" in u.query.Keys;
    QueryRead("", keys, u.query);
    EmptyPrefix(QueryText(keys, u.query));
  }

  lemma ListedIsQuery(keys: seq<string>, query: map<string, string>)
    requires Enumerates(keys, query.Keys) && "appName" in query && query["appName"] == "Genny"
    ensures Store(Listed(keys, query), map[])["appName" := "Genny"] == query
  {
    StoreListed(keys, query, map[]);
    var m := Selected(keys, query);
    assert map[] + m == m && m == query;
  }

  lemma HostsReadBack(hosts: seq<string>, rest: string)
    requires (forall h :: h in hosts ==> HostOk(h)) && EndsHosts(rest)
    ensures ParseHosts(HostsThen(hosts, rest)) == (Members(hosts), rest)
  {
    if hosts == [] {
      NoHostAtEnd(rest);
      assert Members(hosts) == {};
    } else {
      HostsRead("", hosts, rest);
      EmptyPrefix(HostsThen(hosts, rest));
    }
  }

  /** Everything after the user information is read back. */
  lemma TailReadBack(u: Uri, hosts: seq<string>, keys: seq<string>, user: string, password: string)
    requires PartsOk(u) && Enumerates(hosts, u.hosts) && Enumerates(keys, u.query.Keys)
    ensures ParseFrom(u.protocol, UserInfo(user, password, Tail(u, hosts, keys))) ==
            u.(username := user, password := password)
  {
    QueryReadBack(u, keys);
    ListedIsQuery(keys, u.query);
    TailText(u, hosts, keys);
    var q := QueryText(keys, u.query);
    HostsReadBack(hosts, "/" + (u.database + ("?" + q)));
    DatabaseMatches(u.database, q);
    assert Members(hosts) == u.hosts;
    assert u.protocol != "";
  }

  lemma ProtocolMatches(protocol: string, rest: string)
    requires protocol in {PLAIN, SRV}
    ensures MatchProtocol(protocol + rest) == protocol && (protocol + rest)[|protocol|..] == rest
  {
    assert PLAIN[7] != SRV[7];
    assert (SRV + rest)[7] == SRV[7];
  }

  /** The tail does not begin with a colon, so a user name found in it is not empty. */
  lemma TailStart(u: Uri, hosts: seq<string>, keys: seq<string>)
    requires PartsOk(u) && Enumerates(hosts, u.hosts) && Enumerates(keys, u.query.Keys)
    ensures Tail(u, hosts, keys) != "" && Tail(u, hosts, keys)[0] != ':'
  {
    assert "appName" in keys;
    TailText(u, hosts, keys);
    if hosts != [] {
      assert HostOk(hosts[0]);
    }
  }

  lemma ParseAfterProtocol(protocol: string, body: string)
    requires protocol in {PLAIN, SRV}
    ensures Parse(protocol + body) ==
            match MatchUserInfo(body)
            case None => ParseFrom(protocol, UserInfo("", "", body))
            case Some(info) => ParseFrom(protocol, info)
  {
    ProtocolMatches(protocol, body);
  }

  lemma NestUserInfo(p: string, a: string, b: string, t: string)
    ensures p + (a + ":" + b + "@") + t == p + (a + (":" + (b + ("@" + t))))
  {
  }

  lemma EmptyPrefix(t: string)
    ensures "" + t == t
  {
  }

  lemma WithUserReadBack(u: Uri, hosts: seq<string>, keys: seq<string>)
    requires PartsOk(u) && Enumerates(hosts, u.hosts) && Enumerates(keys, u.query.Keys) && u.username != ""
    ensures Parse(Print(u, hosts, keys, false)) == u
  {
    var tail := Tail(u, hosts, keys);
    var body := u.username + (":" + (u.password + ("@" + tail)));
    NestUserInfo(u.protocol, u.username, u.password, tail);
    ParseAfterProtocol(u.protocol, body);
    UserInfoMatches(u.username, u.password, tail);
    TailReadBack(u, hosts, keys, u.username, u.password);
  }

  lemma WithoutUserReadBack(u: Uri, hosts: seq<string>, keys: seq<string>)
    requires PartsOk(u) && Enumerates(hosts, u.hosts) && Enumerates(keys, u.query.Keys) && u.username == ""
    ensures Parse(Print(u, hosts, keys, false)) == u <==>
            u.password == "" && MatchUserInfo(Tail(u, hosts, keys)).None?
  {
    var tail := Tail(u, hosts, keys);
    assert Print(u, hosts, keys, false) == u.protocol + tail;
    ParseAfterProtocol(u.protocol, tail);
    TailStart(u, hosts, keys);
    TailReadBack(u, hosts, keys, "", "");
  }

  /**
   The round trip, exactly: for parts free of their delimiters and any iteration orders, parsing the printed
   string gives the configuration back if and only if there is a user name, or there is no password either
   and the text after the protocol does not itself read as user information.
   */
  lemma RoundTrip(u: Uri, hosts: seq<string>, keys: seq<string>)
    requires PartsOk(u) && Enumerates(hosts, u.hosts) && Enumerates(keys, u.query.Keys)
    ensures Parse(Print(u, hosts, keys, false)) == u <==>
            u.username != "" || (u.password == "" && MatchUserInfo(Tail(u, hosts, keys)).None?)
  {
    if u.username != "" {
      WithUserReadBack(u, hosts, keys);
    } else {
      WithoutUserReadBack(u, hosts, keys);
    }
  }

  /** A caller's sufficient check: no password without a user, and no '@' outside the user information. */
  lemma RoundTripWithoutAt(u: Uri, hosts: seq<string>, keys: seq<string>)
    requires PartsOk(u) && Enumerates(hosts, u.hosts) && Enumerates(keys, u.query.Keys)
    requires u.username == "" ==> u.password == "" && '@' !in Tail(u, hosts, keys)
    ensures Parse(Print(u, hosts, keys, false)) == u
  {
    RoundTrip(u, hosts, keys);
  }

  /** A redacted string does not depend on the password: nothing of it can be read off. */
  lemma RedactedHidesPassword(u: Uri, hosts: seq<string>, keys: seq<string>, other: string)
    requires Enumerates(hosts, u.hosts) && Enumerates(keys, u.query.Keys)
    ensures Print(u, hosts, keys, true) == Print(u.(password := other), hosts, keys, true)
  {
  }

  /** Redacting prints the configuration with another password and is otherwise the same. */
  lemma RedactedIsOtherPassword(u: Uri, hosts: seq<string>, keys: seq<string>)
    requires Enumerates(hosts, u.hosts) && Enumerates(keys, u.query.Keys)
    ensures Print(u, hosts, keys, true) == Print(u.(password := "[REDACTED]"), hosts, keys, false)
  {
  }

  /** With a user name, everything but the password is read back from a redacted string. */
  lemma RedactedReadsBack(u: Uri, hosts: seq<string>, keys: seq<string>)
    requires PartsOk(u) && Enumerates(hosts, u.hosts) && Enumerates(keys, u.query.Keys) && u.username != ""
    ensures Parse(Print(u, hosts, keys, true)) == u.(password := "[REDACTED]")
  {
    RedactedIsOtherPassword(u, hosts, keys);
    RoundTrip(u.(password := "[REDACTED]"), hosts, keys);
  }

  lemma NameIsHost(t: string)
    requires MatchName(t).Some?
    ensures HostOk(MatchName(t).value.text)
  {
    var n, h := Span(t, {':', ',', '/'}), MatchName(t).value.text;
    assert h == t[..n] + h[n..];
    SpanConcat(t[..n], h[n..], {':', ',', '/'});
  }

  lemma {:induction false} ParsedHosts(s: string)
    ensures forall h :: h in ParseHosts(s).0 ==> HostOk(h)
    decreases |s|
  {
    var m := MatchHost(s);
    if m.Some? {
      NameIsHost(if StartsWith(s, ',') then s[1..] else s);
      ParsedHosts(m.value.rest);
    }
  }

  lemma AssignmentOk(t: string)
    requires MatchAssignment(t).Some?
    ensures PairOk((MatchAssignment(t).value.key, MatchAssignment(t).value.value))
  {
  }

  predicate AllPairsOk(pairs: seq<(string, string)>) {
    pairs == [] || (PairOk(pairs[0]) && AllPairsOk(pairs[1..]))
  }

  lemma {:induction false} ParsedPairs(s: string)
    ensures AllPairsOk(ParsePairs(s))
    decreases |s|
  {
    var m := MatchPair(s);
    if m.Some? {
      AssignmentOk(if StartsWith(s, '&') then s[1..] else s);
      ParsedPairs(m.value.rest);
      assert ParsePairs(s)[1..] == ParsePairs(m.value.rest);
    }
  }

  lemma {:induction false} StoredPairs(pairs: seq<(string, string)>, query: map<string, string>)
    requires AllPairsOk(pairs)
    requires forall k :: k in query ==> PairOk((k, query[k]))
    ensures forall k :: k in Store(pairs, query) ==> PairOk((k, Store(pairs, query)[k]))
    decreases |pairs|
  {
    if pairs != [] {
      StoredPairs(pairs[1..], query[pairs[0].0 := pairs[0].1]);
    }
  }

  lemma ParsedQueryOk(q: string)
    ensures QueryOk(Store(ParsePairs(q), map[])["appName" := "Genny"])
  {
    ParsedPairs(q);
    StoredPairs(ParsePairs(q), map[]);
    assert PairOk(("appName", "Genny"));
  }

  lemma ParseFromPartsOk(protocol: string, info: UserInfo)
    requires protocol in {"", PLAIN, SRV} && Without(info.username, {':', '@'}) && Without(info.password, {'@'})
    ensures PartsOk(ParseFrom(protocol, info))
  {
    ParsedHosts(info.rest);
    ParsedQueryOk(MatchDatabase(ParseHosts(info.rest).1).rest);
  }

  /** Whatever the input, the parsed parts are free of their delimiters. */
  lemma ParsedPartsOk(uri: string)
    ensures PartsOk(Parse(uri))
  {
    var s := uri[|MatchProtocol(uri)|..];
    var m := MatchUserInfo(s);
    ParseFromPartsOk(MatchProtocol(uri), if m.Some? then m.value else UserInfo("", "", s));
  }

  /** Printing a parsed string is a normal form: parsing it again changes nothing, under the same exact condition. */
  lemma NormalForm(uri: string, hosts: seq<string>, keys: seq<string>)
    requires Enumerates(hosts, Parse(uri).hosts) && Enumerates(keys, Parse(uri).query.Keys)
    ensures var u := Parse(uri);
            Parse(Print(u, hosts, keys, false)) == u <==>
            u.username != "" || (u.password == "" && MatchUserInfo(Tail(u, hosts, keys)).None?)
  {
    ParsedPartsOk(uri);
    RoundTrip(Parse(uri), hosts, keys);
  }

  /** Topology::nameToUri: drop a leading "replicaSet/". */
  function StripSetName(name: string): string {
    var n := Span(name, {'/'});
    if n < |name| then name[n + 1..] else name
  }

  /** nameToUri changes the hosts and nothing else. */
  lemma NameToUriChangesOnlyHosts(u: Uri, name: string, keys: seq<string>)
    requires PartsOk(u) && HostOk(StripSetName(name)) && Enumerates(keys, u.query.Keys)
    requires u.username == "" ==>
               u.password == "" && MatchUserInfo(Tail(u, [StripSetName(name)], keys)).None?
    ensures var moved := u.(hosts := {StripSetName(name)});
            Parse(Print(moved, [StripSetName(name)], keys, false)) == moved
  {
    RoundTrip(u.(hosts := {StripSetName(name)}), [StripSetName(name)], keys);
  }

  /** Two hosts that together read as user information. */
  function Misleading(): Uri {
    Uri(PLAIN, "", "", "", {"b:1", "c@d"}, map["appName" := "Genny"])
  }

  lemma MisleadingParts()
    ensures PartsOk(Misleading())
    ensures Enumerates(["b:1", "c@d"], Misleading().hosts) && Enumerates(["appName"], Misleading().query.Keys)
  {
    SpanConcat("b", ":1", {':', ',', '/'});
    assert "b" + ":1" == "b:1";
    SpanConcat("c@d", "", {':', ',', '/'});
    assert "c@d" + "" == "c@d";
    assert HostOk("b:1") && HostOk("c@d");
  }

  lemma MisleadingText(rest: string)
    ensures HostsThen(["b:1", "c@d"], "/" + rest) == "b" + (":" + ("1,c" + ("@" + ("d/" + rest))))
  {
    assert HostsThen(["c@d"], "/" + rest) == "c@d" + ("/" + rest);
    assert HostsThen(["b:1", "c@d"], "/" + rest) == "b:1" + ("," + ("c@d" + ("/" + rest)));
  }

  /**
   The condition matters: without a user, an '@' after a ':' among the hosts turns the first host into a
   user name.
   */
  lemma AtSignBreaksRoundTrip()
    ensures var u, hosts, keys := Misleading(), ["b:1", "c@d"], ["appName"];
            && PartsOk(u) && Enumerates(hosts, u.hosts) && Enumerates(keys, u.query.Keys)
            && Parse(Print(u, hosts, keys, false)) != u
  {
    MisleadingParts();
    var u, hosts, keys := Misleading(), ["b:1", "c@d"], ["appName"];
    var rest := u.database + ("?" + QueryText(keys, u.query));
    TailText(u, hosts, keys);
    MisleadingText(rest);
    UserInfoMatches("b", "1,c", "d/" + rest);
    RoundTrip(u, hosts, keys);
  }

  // The configuration object

  lemma {:induction false} HostsTextSnoc(hosts: seq<string>, h: string)
    ensures HostsText(hosts + [h]) == HostsText(hosts) + (if hosts == [] then "" else ",") + h
  {
    if |hosts| >= 1 {
      HostsTextSnoc(hosts[1..], h);
      assert (hosts + [h])[1..] == hosts[1..] + [h];
    }
  }

  lemma NestLeft(a: string, b: string, c: string, d: string, e: string)
    ensures (a + (b + (c + d))) + e == a + (b + (c + (d + e)))
  {
  }

  lemma {:induction false} QueryTextSnoc(keys: seq<string>, k: string, query: map<string, string>)
    requires k in query && forall j :: j in keys ==> j in query
    ensures forall j :: j in keys + [k] ==> j in query
    ensures QueryText(keys + [k], query) ==
            QueryText(keys, query) + ((if keys == [] then "" else "&") + (k + ("=" + query[k])))
  {
    var last := k + ("=" + query[k]);
    assert QueryText([k], query) == last by { assert query[k] + "" == query[k]; }
    if keys == [] {
      assert keys + [k] == [k];
    } else {
      var k0, more := keys[0], if |keys| == 1 then "" else "&" + QueryText(keys[1..], query);
      assert (keys + [k])[1..] == keys[1..] + [k];
      QueryTextSnoc(keys[1..], k, query);
      assert "&" + QueryText(keys[1..] + [k], query) == more + ("&" + last);
      NestLeft(k0, "=", query[k0], more, "&" + last);
    }
  }

  /**
   The loop over the hosts.  `rest` is the part of the string from the current index on; every match advances
   it, so the loop ends, at the first position without a host.
   */
  method ScanHosts(s: string) returns (hosts: set<string>, rest: string)
    ensures (hosts, rest) == ParseHosts(s)
  {
    hosts, rest := {}, s;
    while true
      invariant ParseHosts(s).0 == hosts + ParseHosts(rest).0
      invariant ParseHosts(s).1 == ParseHosts(rest).1
      decreases |rest|
    {
      var m := MatchHost(rest);
      if m.None? {
        break;
      }
      hosts, rest := hosts + {m.value.text}, m.value.rest;
    }
  }

  /** The loop over the query options. */
  method ScanQuery(s: string) returns (query: map<string, string>)
    ensures query == Store(ParsePairs(s), map[])
  {
    query := map[];
    var rest := s;
    while true
      invariant Store(ParsePairs(s), map[]) == Store(ParsePairs(rest), query)
      decreases |rest|
    {
      var m := MatchPair(rest);
      if m.None? {
        break;
      }
      assert ParsePairs(rest)[1..] == ParsePairs(m.value.rest);
      query, rest := query[m.value.key := m.value.value], m.value.rest;
    }
  }

  /** The whole parse: protocol and user information, then the hosts, the database and the query options. */
  method Scan(uri: string) returns (u: Uri)
    ensures u == Parse(uri)
  {
    var protocol := MatchProtocol(uri);
    var s := uri[|protocol|..];
    var info := UserInfo("", "", s);
    var m := MatchUserInfo(s);
    if m.Some? {
      info := m.value;
    }
    u := ScanTail(protocol, info);
  }

  method ScanTail(protocol: string, info: UserInfo) returns (u: Uri)
    ensures u == ParseFrom(protocol, info)
  {
    var hosts, rest := ScanHosts(info.rest);
    var db := MatchDatabase(rest);
    var query := ScanQuery(db.rest);
    u := Uri(if protocol == "" then PLAIN else protocol, info.username, info.password, db.text, hosts,
             query["appName" := "Genny"]);
  }

  method JoinHosts(order: seq<string>) returns (text: string)
    ensures text == HostsText(order)
  {
    text := "";
    for i := 0 to |order|
      invariant text == HostsText(order[..i])
    {
      HostsTextSnoc(order[..i], order[i]);
      assert order[..i + 1] == order[..i] + [order[i]];
      text := text + (if i > 0 then "," else "") + order[i];
    }
    assert order[..|order|] == order;
  }

  method JoinQuery(order: seq<string>, query: map<string, string>) returns (text: string)
    requires forall k :: k in order ==> k in query
    ensures text == QueryText(order, query)
  {
    text := "";
    for i := 0 to |order|
      invariant text == QueryText(order[..i], query)
    {
      QueryTextSnoc(order[..i], order[i], query);
      assert order[..i + 1] == order[..i] + [order[i]];
      text := text + ((if i > 0 then "&" else "") + (order[i] + ("=" + query[order[i]])));
    }
    assert order[..|order|] == order;
  }

  datatype OptionType = QueryOption | AccessOption

  /** The predefined set of access options. */
  datatype AccessKey = Protocol | Username | Password | Database | AllowInvalidCertificates | CAFile | PEMKeyFile

  function KeyNamed(name: string): Option<AccessKey> {
    if name == "Protocol" then Some(Protocol)
    else if name == "Username" then Some(Username)
    else if name == "Password" then Some(Password)
    else if name == "Database" then Some(Database)
    else if name == "AllowInvalidCertificates" then Some(AllowInvalidCertificates)
    else if name == "CAFile" then Some(CAFile)
    else if name == "PEMKeyFile" then Some(PEMKeyFile)
    else None
  }

  function InitialOptions(protocol: string, username: string, password: string, database: string): (m: map<AccessKey, string>)
    ensures m.Keys == {Protocol, Username, Password, Database, AllowInvalidCertificates, CAFile, PEMKeyFile}
    ensures m[Protocol] == protocol && m[Username] == username && m[Password] == password && m[Database] == database
  {
    map[Protocol := protocol, Username := username, Password := password, Database := database,
        AllowInvalidCertificates := "", CAFile := "", PEMKeyFile := ""]
  }

  class Config {
    var hosts: set<string>
    var queryOptions: map<string, string>
    var accessOptions: map<AccessKey, string>

    ghost predicate Valid()
      reads this
    {
      {Protocol, Username, Password, Database, AllowInvalidCertificates, CAFile, PEMKeyFile} <= accessOptions.Keys
    }

    ghost function View(): Uri
      requires Valid()
      reads this
    {
      Uri(accessOptions[Protocol], accessOptions[Username], accessOptions[Password], accessOptions[Database],
          hosts, queryOptions)
    }

    constructor (uri: string)
      ensures Valid() && View() == Parse(uri)
    {
      var u := Scan(uri);
      hosts := u.hosts;
      queryOptions := u.query;
      accessOptions := InitialOptions(u.protocol, u.username, u.password, u.database);
    }

    /** makeUri; the arguments are the iteration orders of the host set and of the option map. */
    method MakeUri(hostOrder: seq<string>, keyOrder: seq<string>, redacted: bool) returns (text: string)
      requires Valid() && Enumerates(hostOrder, hosts) && Enumerates(keyOrder, queryOptions.Keys)
      ensures text == Print(View(), hostOrder, keyOrder, redacted)
    {
      var info := "";
      if accessOptions[Username] != "" && redacted {
        info := accessOptions[Username] + ":" + "[REDACTED]" + "@";
      } else if accessOptions[Username] != "" {
        info := accessOptions[Username] + ":" + accessOptions[Password] + "@";
      }
      var hostText := JoinHosts(hostOrder);
      var dbText := if accessOptions[Database] != "" || keyOrder != [] then "/" + accessOptions[Database] else "";
      var mark := if keyOrder != [] then "?" else "";
      var queryText := JoinQuery(keyOrder, queryOptions);
      text := accessOptions[Protocol] + info + (hostText + dbText + mark + queryText);
    }

    /** An unknown access option is refused and changes nothing. */
    method Set(kind: OptionType, key: string, value: string) returns (ok: bool)
      requires Valid()
      modifies this
      ensures Valid() && hosts == old(hosts)
      ensures ok == (kind == QueryOption || KeyNamed(key).Some?)
      ensures queryOptions == if kind == QueryOption then old(queryOptions)[key := value] else old(queryOptions)
      ensures accessOptions == if kind == AccessOption && ok then old(accessOptions)[KeyNamed(key).value := value]
                               else old(accessOptions)
    {
      ok := true;
      if kind == QueryOption {
        queryOptions := queryOptions[key := value];
      } else if KeyNamed(key).Some? {
        accessOptions := accessOptions[KeyNamed(key).value := value];
      } else {
        ok := false;
      }
    }

    method OverrideHosts(newHosts: set<string>)
      requires Valid()
      modifies this`hosts
      ensures Valid() && View() == old(View()).(hosts := newHosts)
    {
      hosts := newHosts;
    }
  }
}
