/** What the connection-string parser makes of any text, and of the short forms a user may write. */
module UriTexts {
  import opened Wrappers
  import opened Text
  import opened MongoUri

  // What each regular expression matches, for every text

  lemma SplitAt(s: string, n: nat, c: char)
    requires n < |s| && s[n] == c
    ensures s == s[..n] + ([c] + s[n + 1..])
  {
  }

  lemma SpanSplits(s: string, stop: set<char>)
    ensures Without(s[..Span(s, stop)], stop)
    ensures s == s[..Span(s, stop)] + s[Span(s, stop)..]
  {
  }

  ghost predicate IsUserInfo(s: string, info: UserInfo) {
    && s == info.username + (":" + (info.password + ("@" + info.rest)))
    && Without(info.username, {':', '@'}) && Without(info.password, {'@'})
  }

  lemma UserInfoSplits(s: string)
    ensures MatchUserInfo(s).Some? ==> IsUserInfo(s, MatchUserInfo(s).value)
  {
    hide Span, Without;
    if MatchUserInfo(s).Some? {
      var n := Span(s, {':', '@'});
      var t := s[n + 1..];
      var m := Span(t, {'@'});
      SpanSplits(s, {':', '@'});
      SpanSplits(t, {'@'});
      SplitAt(s, n, ':');
      SplitAt(t, m, '@');
    }
  }

  /** The user information is the unique split at the first ':' before any '@' and the next '@'. */
  lemma UserInfoExactly(s: string, info: UserInfo)
    ensures MatchUserInfo(s) == Some(info) <==> IsUserInfo(s, info)
  {
    hide MatchUserInfo, Without;
    UserInfoSplits(s);
    if IsUserInfo(s, info) {
      UserInfoMatches(info.username, info.password, info.rest);
    }
  }

  /** A query option is a key without '=' and '&', an equals sign, and everything up to the next '&'. */
  lemma AssignmentExactly(t: string, p: Pair)
    ensures MatchAssignment(t) == Some(p) <==> IsAssignment(t, p)
  {
    hide MatchAssignment, Without;
    AssignmentSplits(t);
    if IsAssignment(t, p) {
      AssignmentMatches(p.key, p.value, p.rest);
    }
  }

  ghost predicate IsAssignment(t: string, p: Pair) {
    && t == p.key + ("=" + (p.value + p.rest))
    && Without(p.key, {'=', '&'}) && Without(p.value, {'&'}) && (p.rest == "" || p.rest[0] == '&')
  }

  lemma AssignmentSplits(t: string)
    ensures MatchAssignment(t).Some? ==> IsAssignment(t, MatchAssignment(t).value)
  {
    hide Span, Without;
    if MatchAssignment(t).Some? {
      var n := Span(t, {'=', '&'});
      var v := t[n + 1..];
      var m := Span(v, {'&'});
      SpanSplits(t, {'=', '&'});
      SpanSplits(v, {'&'});
      SplitAt(t, n, '=');
    }
  }

  /** The database is what is between a slash and the first question mark, or the end. */
  lemma DatabaseExactly(t: string, d: string, rest: string)
    ensures MatchDatabase("/" + t) == Match(d, rest) <==>
            Without(d, {'?'}) && ((t == d && rest == "") || t == d + ("?" + rest))
  {
    DatabaseSplits(t);
    hide MatchDatabase;
    if Without(d, {'?'}) && t == d + ("?" + rest) {
      DatabaseMatches(d, rest);
    }
    if Without(d, {'?'}) && t == d && rest == "" {
      DatabaseAlone(d);
    }
  }

  lemma DatabaseSplits(t: string)
    ensures var m := MatchDatabase("/" + t);
            Without(m.text, {'?'}) && ((t == m.text && m.rest == "") || t == m.text + ("?" + m.rest))
  {
    hide Span, Without;
    assert ("/" + t)[1..] == t;
    var n := Span(t, {'?'});
    SpanSplits(t, {'?'});
    if n < |t| {
      SplitAt(t, n, '?');
    }
  }

  lemma DatabaseAlone(d: string)
    requires Without(d, {'?'})
    ensures MatchDatabase("/" + d) == Match(d, "")
  {
    assert ("/" + d)[1..] == d;
    SpanConcat(d, "", {'?'});
    assert d + "" == d;
  }

  /** Without a slash there is no database, and the query options begin right there. */
  lemma NoSlashNoDatabase(s: string)
    requires s == "" || s[0] != '/'
    ensures MatchDatabase(s) == Match("", s)
  {
  }

  predicate HasPort(h: string) {
    exists i :: 0 <= i < |h| && h[i] == ':'
  }

  /** h cannot be made longer by what follows it. */
  predicate Longest(h: string, rest: string) {
    rest == "" ||
    if HasPort(h) then !IsDigit(rest[0])
    else rest[0] in {':', ',', '/'} && !(rest[0] == ':' && |rest| > 1 && IsDigit(rest[1]))
  }

  lemma BareName(h: string, rest: string)
    requires h != "" && Without(h, {':', ',', '/'})
    requires rest == "" || (rest[0] in {':', ',', '/'} && !(rest[0] == ':' && |rest| > 1 && IsDigit(rest[1])))
    ensures MatchName(h + rest) == Some(Match(h, rest))
  {
    SpanConcat(h, rest, {':', ',', '/'});
    DropFirst(h, rest);
    if rest != "" && rest[0] == ':' {
      assert (h + rest)[|h| + 1..] == rest[1..];
    }
  }

  lemma PortName(name: string, digits: string, rest: string)
    requires name != "" && Without(name, {':', ',', '/'}) && (rest == "" || !IsDigit(rest[0]))
    requires digits != "" && forall i :: 0 <= i < |digits| ==> IsDigit(digits[i])
    ensures MatchName(name + (":" + (digits + rest))) == Some(Match(name + (":" + digits), rest))
  {
    hide Span, DigitSpan;
    SpanConcat(name, ":" + (digits + rest), {':', ',', '/'});
    DropFirst(name, ":" + (digits + rest));
    DropTwo(name, ":", digits + rest);
    DigitSpanConcat(digits, rest);
    SplitAfterThree(name, ":", digits, rest);
  }

  lemma PortIsColon(h: string)
    requires HostOk(h)
    ensures HasPort(h) <==> Span(h, {':', ',', '/'}) < |h|
  {
    var n := Span(h, {':', ',', '/'});
    if n < |h| {
      assert h[n..][0] == h[n];
    }
  }

  lemma NameIsLongest(t: string)
    ensures MatchName(t).Some? ==> Longest(MatchName(t).value.text, MatchName(t).value.rest)
    ensures MatchName(t).None? <==> t == "" || t[0] in {':', ',', '/'}
  {
    var n := Span(t, {':', ',', '/'});
    if n > 0 && n < |t| {
      var h := MatchName(t).value.text;
      if t[n] == ':' && DigitSpan(t[n + 1..]) > 0 {
        assert h[n] == ':';
        var d := DigitSpan(t[n + 1..]);
        assert n + 1 + d < |t| ==> t[n + 1..][d] == t[n + 1 + d];
      } else {
        assert h == t[..n];
        assert t[n..][0] == t[n];
        assert n + 1 < |t| ==> t[n + 1..][0] == t[n + 1] == t[n..][1];
      }
    }
  }

  lemma NameSplits(t: string)
    ensures MatchName(t).Some? ==> t == MatchName(t).value.text + MatchName(t).value.rest
  {
  }

  lemma LongestIsRead(h: string, rest: string)
    requires HostOk(h)
    ensures Longest(h, rest) ==> MatchName(h + rest) == Some(Match(h, rest))
  {
    hide MatchName;
    PortIsColon(h);
    var n := Span(h, {':', ',', '/'});
    if Longest(h, rest) {
      if n == |h| {
        BareName(h, rest);
      } else {
        var name, digits := h[..n], h[n..][1..];
        assert h[n..][0] == h[n];
        SplitAtColon(h, n);
        PortName(name, digits, rest);
        JoinThree(name, ":", digits, rest);
      }
    }
  }

  /** The host read is the longest name with an optional port, if there is any. */
  lemma HostExactly(t: string, h: string, rest: string)
    ensures MatchName(t) == Some(Match(h, rest)) <==> t == h + rest && HostOk(h) && Longest(h, rest)
  {
    hide MatchName, HostOk, Longest;
    if MatchName(t).Some? {
      NameSplits(t);
      NameIsLongest(t);
      NameIsHost(t);
    }
    if t == h + rest && HostOk(h) && Longest(h, rest) {
      LongestIsRead(h, rest);
    }
  }

  // The loops

  /** s is a list of hosts, each with an optional comma before it, up to a place where no host begins. */
  ghost predicate ReadsHosts(s: string, hosts: seq<string>, rest: string)
    decreases |hosts|
  {
    if hosts == [] then rest == s && MatchHost(s).None?
    else
      && HostOk(hosts[0])
      && exists comma, tail ::
           && (comma == "" || comma == ",") && s == comma + (hosts[0] + tail) && Longest(hosts[0], tail)
           && ReadsHosts(tail, hosts[1..], rest)
  }

  lemma {:induction false} HostsParsed(s: string) returns (hosts: seq<string>)
    ensures ReadsHosts(s, hosts, ParseHosts(s).1) && ParseHosts(s).0 == Members(hosts)
    decreases |s|
  {
    hide HostOk, Longest, MatchName;
    var m := MatchHost(s);
    if m.None? {
      hosts := [];
      assert Members(hosts) == {};
    } else {
      var comma, t := if StartsWith(s, ',') then "," else "", if StartsWith(s, ',') then s[1..] else s;
      assert s == comma + t;
      NameSplits(t);
      NameIsLongest(t);
      NameIsHost(t);
      var more := HostsParsed(m.value.rest);
      hosts := [m.value.text] + more;
      assert hosts[1..] == more;
      MembersUnfold(hosts);
    }
  }

  /** s is a list of options, each with an optional ampersand before it, up to a place where none begins. */
  ghost predicate ReadsPairs(s: string, pairs: seq<(string, string)>)
    decreases |pairs|
  {
    if pairs == [] then MatchPair(s).None?
    else
      exists amp, tail ::
        && (amp == "" || amp == "&")
        && s == amp + (pairs[0].0 + ("=" + (pairs[0].1 + tail))) && PairOk(pairs[0]) && (tail == "" || tail[0] == '&')
        && ReadsPairs(tail, pairs[1..])
  }

  lemma {:induction false} PairsParsed(s: string)
    ensures ReadsPairs(s, ParsePairs(s))
    decreases |s|
  {
    hide Without, MatchAssignment;
    var m := MatchPair(s);
    if m.Some? {
      var amp, t := if StartsWith(s, '&') then "&" else "", if StartsWith(s, '&') then s[1..] else s;
      assert s == amp + t;
      AssignmentSplits(t);
      PairsParsed(m.value.rest);
      var p, pairs := m.value, ParsePairs(s);
      assert pairs[0] == (p.key, p.value) && pairs[1..] == ParsePairs(p.rest);
      assert s == amp + (pairs[0].0 + ("=" + (pairs[0].1 + p.rest))) && PairOk(pairs[0]);
    }
  }

  /** Where the last pair with key k is, or |pairs|. */
  function LastOf(pairs: seq<(string, string)>, k: string): (i: nat)
    ensures i <= |pairs|
    ensures i < |pairs| ==> pairs[i].0 == k && forall j :: i < j < |pairs| ==> pairs[j].0 != k
    ensures i == |pairs| ==> forall j :: 0 <= j < |pairs| ==> pairs[j].0 != k
  {
    if pairs == [] then 0
    else if pairs[|pairs| - 1].0 == k then |pairs| - 1
    else
      var i := LastOf(pairs[..|pairs| - 1], k);
      if i == |pairs| - 1 then |pairs| else i
  }

  lemma {:induction false} StoreSnoc(pairs: seq<(string, string)>, p: (string, string), query: map<string, string>)
    ensures Store(pairs + [p], query) == Store(pairs, query)[p.0 := p.1]
    decreases |pairs|
  {
    if pairs == [] {
      assert (pairs + [p])[1..] == [];
    } else {
      assert (pairs + [p])[1..] == pairs[1..] + [p];
      StoreSnoc(pairs[1..], p, query[pairs[0].0 := pairs[0].1]);
    }
  }

  /** An option that is given more than once has the value given last. */
  lemma {:induction false} LastOneWins(pairs: seq<(string, string)>, k: string)
    ensures k in Store(pairs, map[]) <==> LastOf(pairs, k) < |pairs|
    ensures LastOf(pairs, k) < |pairs| ==> Store(pairs, map[])[k] == pairs[LastOf(pairs, k)].1
    decreases |pairs|
  {
    if pairs != [] {
      var front, last := pairs[..|pairs| - 1], pairs[|pairs| - 1];
      assert pairs == front + [last];
      StoreSnoc(front, last, map[]);
      LastOneWins(front, k);
    }
  }

  // Short forms

  /** A string without a protocol is read as one of the plain protocol. */
  lemma ProtocolMayBeLeftOut(s: string)
    requires !(PLAIN <= s) && !(SRV <= s)
    ensures Parse(s) == Parse(PLAIN + s)
  {
    assert s[0..] == s;
    ProtocolMatches(PLAIN, s);
  }

  /** The hosts, with a slash and the database or without both. */
  function ShortTail(u: Uri, hosts: seq<string>, slash: bool): string {
    HostsText(hosts) + if slash then "/" + u.database else ""
  }

  lemma ShortTailRead(u: Uri, hosts: seq<string>, slash: bool, user: string, password: string)
    requires PartsOk(u) && Enumerates(hosts, u.hosts) && u.query == map["appName" := "Genny"]
    requires !slash ==> u.database == ""
    ensures ParseFrom(u.protocol, UserInfo(user, password, ShortTail(u, hosts, slash)))
            == u.(username := user, password := password)
  {
    var rest := if slash then "/" + u.database else "";
    HostsThenText(hosts, rest);
    HostsReadBack(hosts, rest);
    assert Members(hosts) == u.hosts;
    if slash {
      DatabaseExactly(u.database, u.database, "");
    }
    assert ParsePairs("") == [];
    assert u.protocol != "";
  }

  /** Query options, and with them the question mark, may be left out; so may a database that is empty. */
  lemma QueryMayBeLeftOut(u: Uri, hosts: seq<string>, slash: bool)
    requires PartsOk(u) && Enumerates(hosts, u.hosts) && u.query == map["appName" := "Genny"]
    requires !slash ==> u.database == ""
    ensures u.username != "" ==>
              Parse(u.protocol + (u.username + (":" + (u.password + ("@" + ShortTail(u, hosts, slash)))))) == u
    ensures u.username == u.password == "" && MatchUserInfo(ShortTail(u, hosts, slash)).None? ==>
              Parse(u.protocol + ShortTail(u, hosts, slash)) == u
  {
    hide MatchUserInfo, ParseFrom, Parse, PartsOk;
    var tail := ShortTail(u, hosts, slash);
    ShortTailRead(u, hosts, slash, u.username, u.password);
    PartsDelimited(u);
    UserInfoMatches(u.username, u.password, tail);
    ParseAfterProtocol(u.protocol, u.username + (":" + (u.password + ("@" + tail))));
    ParseAfterProtocol(u.protocol, tail);
  }

  lemma PartsDelimited(u: Uri)
    requires PartsOk(u)
    ensures u.protocol in {PLAIN, SRV} && Without(u.username, {':', '@'}) && Without(u.password, {'@'})
  {
  }

  // Names

  /** A name of the form set/host stands for its host, and a name without a slash for itself. */
  lemma StripsSetName(set_: string, host: string)
    requires Without(set_, {'/'})
    ensures StripSetName(set_ + ("/" + host)) == host
    ensures StripSetName(set_) == set_
  {
    SpanConcat(set_, "/" + host, {'/'});
    DropTwo(set_, "/", host);
    SpanConcat(set_, "", {'/'});
    assert set_ + "" == set_;
  }

  function NameOf(key: AccessKey): string {
    match key
    case Protocol => "Protocol"
    case Username => "Username"
    case Password => "Password"
    case Database => "Database"
    case AllowInvalidCertificates => "AllowInvalidCertificates"
    case CAFile => "CAFile"
    case PEMKeyFile => "PEMKeyFile"
  }

  /** The predefined access options are known by exactly these names. */
  lemma AccessNames(name: string, key: AccessKey)
    ensures KeyNamed(name) == Some(key) <==> name == NameOf(key)
  {
  }

  // The printed form

  function Sample(): Uri {
    Uri(PLAIN, "bob", "secret", "db", {"h1:1", "h2"}, map["appName" := "Genny", "w" := "1"])
  }

  lemma ProtocolNames()
    ensures PLAIN == "mongodb://" && SRV == "mongodb+srv://"
  {
  }

  lemma SampleOrders()
    ensures Enumerates(["h1:1", "h2"], Sample().hosts) && Enumerates(["appName", "w"], Sample().query.Keys)
  {
  }

  lemma SampleHosts()
    ensures HostsText(["h1:1", "h2"]) == "h1:1" + "," + "h2"
  {
    assert ["h1:1", "h2"][1..] == ["h2"];
  }

  lemma SampleQuery()
    requires Enumerates(["appName", "w"], Sample().query.Keys)
    ensures QueryText(["appName", "w"], Sample().query) == "appName" + ("=" + ("Genny" + ("&" + ("w" + ("=" + ("1" + ""))))))
  {
    assert ["appName", "w"][1..] == ["w"];
  }

  /** What is printed, delimiter by delimiter, on one configuration. */
  lemma PrintedForms()
    ensures Enumerates(["h1:1", "h2"], Sample().hosts) && Enumerates(["appName", "w"], Sample().query.Keys)
    ensures var tail := "h1:1" + "," + "h2" + ("/" + "db") + "?"
                        + ("appName" + ("=" + ("Genny" + ("&" + ("w" + ("=" + ("1" + "")))))));
            && Print(Sample(), ["h1:1", "h2"], ["appName", "w"], false) == PLAIN + ("bob" + ":" + "secret" + "@") + tail
            && Print(Sample(), ["h1:1", "h2"], ["appName", "w"], true) == PLAIN + ("bob" + ":" + "[REDACTED]" + "@") + tail
  {
    SampleOrders();
    hide HostsText, QueryText, Enumerates;
    SampleHosts();
    SampleQuery();
  }
}
