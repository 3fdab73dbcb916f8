/** The text form of jumps: what ssh is given after `-J` reads back as the jumps it was written from. */
module JumpSyntax {
  import opened Wrappers
  import opened Text
  import opened SSHConfig
  import opened ProxyJump

  /** `gitSSHJumpTarget.summary`: user@host:port, leaving out what is empty. */
  function Summary(j: Jump): string {
    (if j.user != "" then j.user + "@" + j.host else j.host) + (if j.port != "" then ":" + j.port else "")
  }

  predicate Canonical(j: Jump) {
    && ValidHost(j.host)
    && (j.port == "" || ValidPort(j.port))
    && (j.user == "" || !IsSpace(j.user[0]))
  }

  lemma {:induction false} LastIndexAt(a: string, c: char, b: string)
    requires c !in b
    ensures LastIndex(a + [c] + b, c) == |a|
  {
    hide LastIndex;
    var s := a + [c] + b;
    assert s[|a|] == c;
    assert forall j :: |a| < j < |s| ==> s[j] == b[j - |a| - 1];
  }

  lemma LowerIsLower(h: string)
    requires forall i :: 0 <= i < |h| ==> HostChar(h[i])
    ensures ToLower(h) == h
  {
  }

  lemma HostIsPlain(h: string)
    requires ValidHost(h)
    ensures Trimmed(h) && '@' !in h && ':' !in h && ',' !in h
    ensures ToLower(TrimSpace(h)) == h
  {
    forall i | 0 <= i < |h|
      ensures h[i] != '@' && h[i] != ':' && h[i] != ',' && !IsSpace(h[i])
    {
      assert HostChar(h[i]);
    }
    TrimTrimmed(h);
    LowerIsLower(h);
  }

  lemma PortIsPlain(p: string)
    requires ValidPort(p)
    ensures '@' !in p && ':' !in p && ',' !in p && !IsSpace(p[|p| - 1])
  {
    hide ToLower;
    forall i | 0 <= i < |p|
      ensures p[i] != '@' && p[i] != ':' && p[i] != ',' && !IsSpace(p[i])
    {
    }
  }

  function HostPort(j: Jump): string {
    j.host + (if j.port != "" then ":" + j.port else "")
  }

  lemma HostPortSplits(j: Jump)
    requires Canonical(j)
    ensures SplitPort(HostPort(j)) == (j.host, j.port)
    ensures '@' !in HostPort(j)
    ensures HostPort(j) != "" && !IsSpace(HostPort(j)[0]) && !IsSpace(HostPort(j)[|HostPort(j)| - 1])
  {
    HostIsPlain(j.host);
    assert j.host != "";
    hide *;
    if j.port != "" {
      assert ValidPort(j.port) by {
        CanonicalPort(j);
      }
      PortIsPlain(j.port);
      LastIndexAt(j.host, ':', j.port);
      HostPortWithPort(j);
    } else {
      HostPortWithoutPort(j);
    }
  }

  lemma CanonicalPort(j: Jump)
    requires Canonical(j)
    ensures j.port == "" || ValidPort(j.port)
  {
    hide ValidPort;
    hide ValidHost;
  }

  lemma HostPortWithPort(j: Jump)
    requires ValidPort(j.port) && j.port != "" && '@' !in j.port && !IsSpace(j.port[|j.port| - 1])
    requires j.host != "" && Trimmed(j.host) && '@' !in j.host
    requires LastIndex(j.host + [':'] + j.port, ':') == |j.host|
    ensures SplitPort(HostPort(j)) == (j.host, j.port)
    ensures '@' !in HostPort(j)
    ensures HostPort(j) != "" && !IsSpace(HostPort(j)[0]) && !IsSpace(HostPort(j)[|HostPort(j)| - 1])
  {
    hide LastIndex;
    hide ValidPort;
    hide IsSpace;
    var rest := HostPort(j);
    assert rest == j.host + [':'] + j.port;
    assert rest[..|j.host|] == j.host && rest[|j.host| + 1..] == j.port;
    assert rest[0] == j.host[0] && rest[|rest| - 1] == j.port[|j.port| - 1];
  }

  lemma HostPortWithoutPort(j: Jump)
    requires j.port == "" && j.host != "" && Trimmed(j.host) && '@' !in j.host && ':' !in j.host
    ensures SplitPort(HostPort(j)) == (j.host, j.port)
    ensures '@' !in HostPort(j)
    ensures HostPort(j) != "" && !IsSpace(HostPort(j)[0]) && !IsSpace(HostPort(j)[|HostPort(j)| - 1])
  {
    hide LastIndex;
    hide ValidPort;
    assert HostPort(j) == j.host;
    assert LastIndex(j.host, ':') == -1;
  }

  lemma {:induction false} ParseParts(raw: string, at: int, user: string, rest: string, host: string, port: string)
    requires raw != "" && Trimmed(raw) && LastIndex(raw, '@') == at
    requires user == (if at >= 0 then raw[..at] else "") && rest == raw[at + 1..]
    requires SplitPort(rest) == (host, port)
    requires ToLower(TrimSpace(host)) == host && ValidHost(host)
    ensures ParseJump(raw) == Ok(Jump(host, user, port))
  {
    TrimTrimmed(raw);
    hide ToLower;
    hide TrimSpace;
    hide LastIndex;
    hide ValidHost;
    hide SplitPort;
    hide IsSpace;
  }

  lemma {:induction false} UserPrefix(user: string, rest: string)
    requires user != "" && !IsSpace(user[0])
    requires '@' !in rest && rest != "" && !IsSpace(rest[|rest| - 1])
    ensures var s := user + "@" + rest;
            && Trimmed(s) && LastIndex(s, '@') == |user|
            && s[..|user|] == user && s[|user| + 1..] == rest
  {
    hide IsSpace;
    LastIndexAt(user, '@', rest);
    assert user + ['@'] + rest == user + "@" + rest;
    var s := user + "@" + rest;
    assert s[0] == user[0] && s[|s| - 1] == rest[|rest| - 1];
  }

  lemma {:induction false} SummaryParses(j: Jump)
    requires Canonical(j)
    ensures ParseJump(Summary(j)) == Ok(j)
  {
    CanonicalParts(j);
    hide *;
    var rest := HostPort(j);
    HostPortReads(j);
    SummaryText(j);
    if j.user == "" {
      ParseWithoutUser(rest, j);
    } else {
      ParseWithUser(rest, j);
    }
  }

  lemma HostPortReads(j: Jump)
    requires Canonical(j)
    ensures var rest := HostPort(j);
            && SplitPort(rest) == (j.host, j.port) && ToLower(TrimSpace(j.host)) == j.host
            && '@' !in rest && rest != "" && !IsSpace(rest[0]) && !IsSpace(rest[|rest| - 1])
  {
    CanonicalParts(j);
    hide *;
    HostPortSplits(j);
    HostIsPlain(j.host);
  }

  lemma ParseWithoutUser(rest: string, j: Jump)
    requires j.user == "" && SplitPort(rest) == (j.host, j.port) && ToLower(TrimSpace(j.host)) == j.host && ValidHost(j.host)
    requires '@' !in rest && rest != "" && !IsSpace(rest[0]) && !IsSpace(rest[|rest| - 1])
    ensures ParseJump(rest) == Ok(j)
  {
    hide *;
    NoUser(rest);
    ParseParts(rest, -1, "", rest, j.host, j.port);
  }

  lemma ParseWithUser(rest: string, j: Jump)
    requires j.user != "" && !IsSpace(j.user[0])
    requires SplitPort(rest) == (j.host, j.port) && ToLower(TrimSpace(j.host)) == j.host && ValidHost(j.host)
    requires '@' !in rest && rest != "" && !IsSpace(rest[|rest| - 1])
    ensures ParseJump(j.user + "@" + rest) == Ok(j)
  {
    hide *;
    UserPrefix(j.user, rest);
    ParseParts(j.user + "@" + rest, |j.user|, j.user, rest, j.host, j.port);
  }

  lemma CanonicalParts(j: Jump)
    requires Canonical(j)
    ensures ValidHost(j.host) && (j.user == "" || !IsSpace(j.user[0]))
  {
    hide IsSpace;
    hide ValidHost;
  }

  lemma {:induction false} NoUser(rest: string)
    requires '@' !in rest && rest != "" && !IsSpace(rest[0]) && !IsSpace(rest[|rest| - 1])
    ensures Trimmed(rest) && LastIndex(rest, '@') == -1 && rest[-1 + 1..] == rest
  {
  }

  lemma {:induction false} SummaryText(j: Jump)
    ensures Summary(j) == if j.user == "" then HostPort(j) else j.user + "@" + HostPort(j)
  {
  }

  /** Whatever an entry parses to is canonical. */
  lemma ParsedIsCanonical(raw: string)
    requires ParseJump(raw).Ok?
    ensures Canonical(ParseJump(raw).value)
  {
    hide ToLower;
    hide LastIndex;
    hide ValidHost;
    hide ValidPort;
  }

  /** The parts of an entry: a user before the last '@', if there is one, a host name in any case, and a port after a
      colon, if there is one. */
  ghost predicate Written(raw: string, user: string, name: string, port: string, j: Jump) {
    && raw == user + name + port
    && (user == j.user + "@" || (user == "" && j.user == ""))
    && '@' !in name && '@' !in port
    && port == (if j.port == "" then "" else ":" + j.port)
    && (forall i :: 0 <= i < |j.port| ==> '0' <= j.port[i] <= '9')
    && j.host == ToLower(TrimSpace(name)) && j.host != ""
    && (forall i :: 0 <= i < |j.host| ==> var c := j.host[i]; 'a' <= c <= 'z' || '0' <= c <= '9' || c == '.' || c == '-')
  }

  /** An entry reads as a jump exactly if it is that jump written out, with any space around it. */
  lemma ParsesIffWritten(raw: string, j: Jump)
    ensures ParseJump(raw) == Ok(j) <==> exists user, name, port :: Written(TrimSpace(raw), user, name, port, j)
  {
    hide TrimSpace;
    hide ToLower;
    if ParseJump(raw) == Ok(j) {
      var user, name, port := PartsOf(raw, j);
      WrittenFrom(TrimSpace(raw), user, name, port, j);
    }
    if user, name, port :| Written(TrimSpace(raw), user, name, port, j) {
      WrittenParses(raw, user, name, port, j);
    }
  }

  lemma SplitPortParts(s: string)
    ensures var (name, port) := SplitPort(s);
            && s == name + (if port == "" then "" else ":" + port)
            && forall i :: 0 <= i < |port| ==> '0' <= port[i] <= '9'
  {
    hide LastIndex;
    var colon := LastIndex(s, ':');
    if colon >= 0 {
      assert s == s[..colon] + [':'] + s[colon + 1..];
    }
  }

  lemma CutAt(s: string, at: int)
    requires 0 <= at < |s| && s[at] == '@'
    ensures s == s[..at] + "@" + s[at + 1..]
  {
  }

  lemma NothingBefore(s: string)
    ensures "" + s == s
  {
  }

  lemma NoneAfterLast(s: string, c: char)
    ensures c !in s[LastIndex(s, c) + 1..]
  {
    hide LastIndex;
    var at := LastIndex(s, c);
    var rest := s[at + 1..];
    forall i | 0 <= i < |rest|
      ensures rest[i] != c
    {
      assert rest[i] == s[at + 1 + i];
    }
  }

  /** The text before the last '@', and after it. */
  function UserOf(value: string): string {
    if LastIndex(value, '@') >= 0 then value[..LastIndex(value, '@')] else ""
  }

  function RestOf(value: string): string {
    value[LastIndex(value, '@') + 1..]
  }

  lemma ParseGives(raw: string, j: Jump)
    requires ParseJump(raw) == Ok(j)
    ensures var value := TrimSpace(raw);
            && j.user == UserOf(value) && SplitPort(RestOf(value)).1 == j.port
            && ToLower(TrimSpace(SplitPort(RestOf(value)).0)) == j.host && ValidHost(j.host)
  {
    hide TrimSpace;
    hide ToLower;
    hide LastIndex;
    hide SplitPort;
    hide ValidHost;
  }

  lemma UserParts(value: string) returns (user: string)
    ensures value == user + RestOf(value) && '@' !in RestOf(value)
    ensures user == UserOf(value) + "@" || (user == "" && UserOf(value) == "")
  {
    NoneAfterLast(value, '@');
    hide LastIndex;
    var at := LastIndex(value, '@');
    if at >= 0 {
      CutAt(value, at);
      return UserOf(value) + "@";
    }
    NothingBefore(value);
    assert RestOf(value) == value;
    return "";
  }

  lemma PartsOf(raw: string, j: Jump) returns (user: string, name: string, port: string)
    requires ParseJump(raw) == Ok(j)
    ensures TrimSpace(raw) == user + name + port && '@' !in name && '@' !in port
    ensures user == j.user + "@" || (user == "" && j.user == "")
    ensures port == if j.port == "" then "" else ":" + j.port
    ensures forall i :: 0 <= i < |j.port| ==> '0' <= j.port[i] <= '9'
    ensures j.host == ToLower(TrimSpace(name)) && ValidHost(j.host)
  {
    ParseGives(raw, j);
    hide *;
    user, name, port := ValueParts(TrimSpace(raw), j.port);
  }

  lemma ValueParts(value: string, digits: string) returns (user: string, name: string, port: string)
    requires SplitPort(RestOf(value)).1 == digits
    ensures value == user + name + port && '@' !in name && '@' !in port
    ensures user == UserOf(value) + "@" || (user == "" && UserOf(value) == "")
    ensures name == SplitPort(RestOf(value)).0 && port == if digits == "" then "" else ":" + digits
    ensures forall i :: 0 <= i < |digits| ==> '0' <= digits[i] <= '9'
  {
    hide *;
    user := UserParts(value);
    name, port := RestParts(RestOf(value), digits);
    AllOfIt(user, name, port);
  }

  lemma RestParts(rest: string, digits: string) returns (name: string, port: string)
    requires SplitPort(rest).1 == digits
    ensures name == SplitPort(rest).0 && rest == name + port
    ensures port == if digits == "" then "" else ":" + digits
    ensures forall i :: 0 <= i < |digits| ==> '0' <= digits[i] <= '9'
  {
    SplitPortParts(rest);
    hide *;
    name, port := SplitPort(rest).0, if digits == "" then "" else ":" + digits;
  }

  lemma AllOfIt(user: string, name: string, port: string)
    ensures user + (name + port) == user + name + port
    ensures '@' !in name + port <==> '@' !in name && '@' !in port
  {
    var s := name + port;
    assert s[..|name|] == name && s[|name|..] == port;
  }

  lemma WrittenFrom(raw: string, user: string, name: string, port: string, j: Jump)
    requires raw == user + name + port && '@' !in name && '@' !in port
    requires user == j.user + "@" || (user == "" && j.user == "")
    requires port == (if j.port == "" then "" else ":" + j.port)
    requires forall i :: 0 <= i < |j.port| ==> '0' <= j.port[i] <= '9'
    requires j.host == ToLower(TrimSpace(name)) && ValidHost(j.host)
    ensures Written(raw, user, name, port, j)
  {
    hide TrimSpace;
    hide ToLower;
    assert forall i :: 0 <= i < |j.host| ==> HostChar(j.host[i]);
  }

  lemma SpaceHasNo(s: string, c: char)
    requires OnlySpace(s) && !IsSpace(c)
    ensures c !in s
  {
  }

  lemma ColonSurvives(name: string)
    ensures ':' in name ==> ':' in ToLower(TrimSpace(name))
  {
    hide TrimSpace;
    hide ToLower;
    var a, b := TrimIsMiddle(name);
    SpaceHasNo(name[..a], ':');
    SpaceHasNo(name[b..], ':');
    assert name == name[..a] + name[a..b] + name[b..];
    if ':' in name {
      var k :| 0 <= k < b - a && name[a..b][k] == ':';
      assert ToLower(TrimSpace(name))[k] == ':';
    }
  }

  lemma PortSplits(name: string, port: string, j: Jump)
    requires ValidHost(ToLower(TrimSpace(name)))
    requires port == (if j.port == "" then "" else ":" + j.port)
    requires forall i :: 0 <= i < |j.port| ==> '0' <= j.port[i] <= '9'
    ensures SplitPort(name + port) == (name, j.port)
  {
    if j.port == "" {
      ColonSurvives(name);
      HostIsPlain(ToLower(TrimSpace(name)));
      hide *;
      NoPort(name);
    } else {
      hide *;
      WithPort(name, j.port);
    }
  }

  lemma NoPort(name: string)
    requires ':' !in name
    ensures SplitPort(name + "") == (name, "")
  {
    hide ValidPort;
    assert name + "" == name;
    assert LastIndex(name, ':') == -1;
  }

  lemma WithPort(name: string, port: string)
    requires port != "" && forall i :: 0 <= i < |port| ==> '0' <= port[i] <= '9'
    ensures SplitPort(name + (":" + port)) == (name, port)
  {
    hide LastIndex;
    LastIndexAt(name, ':', port);
    var s := name + [':'] + port;
    assert s == name + (":" + port);
    assert s[..|name|] == name && s[|name| + 1..] == port;
  }

  lemma WrittenParses(raw: string, user: string, name: string, port: string, j: Jump)
    requires Written(TrimSpace(raw), user, name, port, j)
    ensures ParseJump(raw) == Ok(j)
  {
    hide TrimSpace;
    hide ToLower;
    hide LastIndex;
    hide ParseJump;
    hide SplitPort;
    HostGood(j.host);
    hide ValidHost;
    assert !Blank(name);
    hide Blank;
    PortSplits(name, port, j);
    var rest := name + port;
    AllOfIt(user, name, port);
    if user == "" {
      NothingBefore(rest);
      assert '@' !in rest;
      NoneFound(rest);
      ParseIs(raw, rest, -1, "", name, j);
    } else {
      AfterUser(j.user, rest);
      ParseIs(raw, j.user + "@" + rest, |j.user|, j.user, name, j);
    }
  }

  lemma HostGood(h: string)
    requires h != "" && forall i :: 0 <= i < |h| ==> var c := h[i]; 'a' <= c <= 'z' || '0' <= c <= '9' || c == '.' || c == '-'
    ensures ValidHost(h)
  {
  }

  lemma NoneFound(s: string)
    requires '@' !in s
    ensures LastIndex(s, '@') == -1 && s[-1 + 1..] == s
  {
  }

  lemma AfterUser(user: string, rest: string)
    requires '@' !in rest
    ensures var s := user + "@" + rest; s[..|user|] == user && s[|user| + 1..] == rest && LastIndex(s, '@') == |user|
  {
    hide LastIndex;
    LastIndexAt(user, '@', rest);
    assert user + "@" + rest == user + ['@'] + rest;
  }

  lemma ParseIs(raw: string, value: string, at: int, user: string, name: string, j: Jump)
    requires TrimSpace(raw) == value != "" && LastIndex(value, '@') == at
    requires user == (if at >= 0 then value[..at] else "") == j.user
    requires SplitPort(value[at + 1..]) == (name, j.port)
    requires ToLower(TrimSpace(name)) == j.host && ValidHost(j.host)
    ensures ParseJump(raw) == Ok(j)
  {
    hide TrimSpace;
    hide ToLower;
    hide LastIndex;
    hide SplitPort;
    hide ValidHost;
  }

  /** Writing and reading a jump is the identity on exactly the canonical jumps. */
  lemma SummaryRoundTrip(j: Jump)
    ensures ParseJump(Summary(j)) == Ok(j) <==> Canonical(j)
  {
    hide ParseJump;
    hide Summary;
    hide Canonical;
    if Canonical(j) {
      SummaryParses(j);
    }
    if ParseJump(Summary(j)) == Ok(j) {
      ParsedIsCanonical(Summary(j));
    }
  }

  function Summaries(js: seq<Jump>): (r: seq<string>)
    ensures |r| == |js|
    ensures forall i :: 0 <= i < |js| ==> r[i] == Summary(js[i])
  {
    seq(|js|, i requires 0 <= i < |js| => Summary(js[i]))
  }

  /** The comma-separated `-J` argument splits back into the same jumps when no user name holds a comma. */
  lemma JumpArgumentRoundTrip(js: seq<Jump>)
    requires js != []
    requires forall i :: 0 <= i < |js| ==> Canonical(js[i]) && ',' !in js[i].user
    ensures var parts := Entries(Join(Summaries(js), ","));
            |parts| == |js| && forall i :: 0 <= i < |js| ==> ParseJump(parts[i]) == Ok(js[i])
  {
    hide ParseJump;
    hide ValidHost;
    hide ValidPort;
    var texts := Summaries(js);
    forall i | 0 <= i < |js|
      ensures ',' !in texts[i] && ParseJump(texts[i]) == Ok(js[i])
    {
      var j := js[i];
      SummaryParses(j);
      HostIsPlain(j.host);
      if j.port != "" {
        PortIsPlain(j.port);
      }
    }
    SplitJoin(texts, ',');
  }
}
