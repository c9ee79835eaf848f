/**
  The web proxy of lab10/proxy.c: how it takes a request target apart and how doit turns the bytes of its
  two connections into one another.  Section numbers are those of RFC 9112.
 */
module Proxy {
  import opened CString
  import opened Rio
  import opened Wrappers

  const MAXLINE: nat := 8192

  const CRLF: string := "\r\n"

  function Lower(c: char): char {
    if 'A' <= c <= 'Z' then (c as int + 32) as char else c
  }

  // strncasecmp(s, lit, strlen(lit)) == 0, where `lit` has no NUL
  predicate StartsIgnoringCase(s: string, lit: string) {
    |lit| <= |s| && forall i :: 0 <= i < |lit| ==> Lower(s[i]) == Lower(lit[i])
  }

  // ---------- the request target ----------

  datatype Target = Target(host: string, port: string, path: string)

  predicate IsDelim(c: char) {
    c == ' ' || c == ':' || c == '/' || c == '\r' || c == '\n'
  }

  // The number of characters before the first delimiter
  function HostLen(s: string): (n: nat)
    ensures n <= |s|
    ensures forall i :: 0 <= i < n ==> !IsDelim(s[i])
    ensures n < |s| ==> IsDelim(s[n])
  {
    if s == "" || IsDelim(s[0]) then 0 else 1 + HostLen(s[1..])
  }

  function PortLen(s: string): (n: nat)
    ensures n <= |s|
  {
    if s == "" || !IsDecimal(s[0]) then 0 else 1 + PortLen(s[1..])
  }

  // What follows the first slash
  function AfterSlash(s: string): (r: string)
    ensures s != "" ==> |r| < |s|
    ensures s == "" ==> r == ""
  {
    if s == "" then "" else if s[0] == '/' then s[1..] else AfterSlash(s[1..])
  }

  // The absolute-form of a target, section 3.2.2
  function TargetOf(uri: string): (r: Option<Target>)
    ensures r.Some? ==> |r.value.path| <= |uri| - 8
  {
    if !StartsIgnoringCase(uri, "http://") then None else
      var s := uri[7..];
      var n := HostLen(s);
      if n == |s| then None else
        var port := if s[n] == ':' then s[n + 1..][..PortLen(s[n + 1..])] else "80";
        Some(Target(s[..n], port, AfterSlash(s)))
  }

  // A target is accepted exactly if a delimiter follows the scheme somewhere.
  lemma TargetAccepted(uri: string)
    ensures TargetOf(uri).Some? <==> StartsIgnoringCase(uri, "http://") && exists i :: 7 <= i < |uri| && IsDelim(uri[i])
  {
    if StartsIgnoringCase(uri, "http://") {
      var s := uri[7..];
      var n := HostLen(s);
      if n < |s| {
        assert IsDelim(uri[7 + n]);
      } else {
        assert forall i :: 7 <= i < |uri| ==> uri[i] == s[i - 7] && !IsDelim(s[i - 7]);
      }
    }
  }

  // Section 3.2.2 allows a target to end after the host; the code does not.
  lemma BareHostRejected()
    ensures TargetOf("http://host") == None
  {
    assert "http://host"[7..] == "host";
    TargetAccepted("http://host");
    assert forall i :: 7 <= i < 11 ==> !IsDelim("http://host"[i]);
  }

  lemma {:induction false} HostLenIs(host: string, rest: string)
    requires forall i :: 0 <= i < |host| ==> !IsDelim(host[i])
    requires rest != "" && IsDelim(rest[0])
    ensures HostLen(host + rest) == |host|
  {
    if host != "" {
      assert (host + rest)[1..] == host[1..] + rest;
      HostLenIs(host[1..], rest);
    } else {
      assert host + rest == rest;
    }
  }

  lemma {:induction false} PortLenIs(port: string, rest: string)
    requires (forall i :: 0 <= i < |port| ==> IsDecimal(port[i])) && (rest == "" || !IsDecimal(rest[0]))
    ensures PortLen(port + rest) == |port|
  {
    if port != "" {
      assert (port + rest)[1..] == port[1..] + rest;
      PortLenIs(port[1..], rest);
    } else {
      assert port + rest == rest;
    }
  }

  lemma {:induction false} AfterSlashIs(s: string, path: string)
    requires '/' !in s
    ensures AfterSlash(s + "/" + path) == path
  {
    if s != "" {
      assert (s + "/" + path)[1..] == s[1..] + "/" + path;
      AfterSlashIs(s[1..], path);
    } else {
      assert s + "/" + path == "/" + path;
    }
  }

  // Host, port and path come back from the target they are written in.
  lemma TargetRoundTrip(scheme: string, host: string, port: Option<string>, path: string)
    requires |scheme| == 7 && StartsIgnoringCase(scheme, "http://")
    requires forall i :: 0 <= i < |host| ==> !IsDelim(host[i])
    requires port.Some? ==> forall i :: 0 <= i < |port.value| ==> IsDecimal(port.value[i])
    ensures TargetOf(scheme + (host + (if port.Some? then ":" + port.value else "") + "/" + path)) ==
            Some(Target(host, if port.Some? then port.value else "80", path))
  {
    hide HostLen, PortLen, AfterSlash;
    var mid := if port.Some? then ":" + port.value else "";
    var s := host + mid + "/" + path;
    var uri := scheme + s;
    assert uri[7..] == s;
    assert forall i :: 0 <= i < 7 ==> uri[i] == scheme[i];
    AfterScheme(host, port, path);
  }

  lemma AfterScheme(host: string, port: Option<string>, path: string)
    requires forall i :: 0 <= i < |host| ==> !IsDelim(host[i])
    requires port.Some? ==> forall i :: 0 <= i < |port.value| ==> IsDecimal(port.value[i])
    ensures var s := host + (if port.Some? then ":" + port.value else "") + "/" + path;
            && HostLen(s) == |host| < |s| && s[..|host|] == host && AfterSlash(s) == path
            && (if port.Some? then s[|host|] == ':' && s[|host| + 1..][..PortLen(s[|host| + 1..])] == port.value else s[|host|] == '/')
  {
    hide HostLen, PortLen, AfterSlash;
    var mid := if port.Some? then ":" + port.value else "";
    var s := host + mid + "/" + path;
    var rest := mid + "/" + path;
    assert s == host + rest;
    HostLenIs(host, rest);
    if port.Some? {
      assert s[|host| + 1..] == port.value + ("/" + path);
      PortLenIs(port.value, "/" + path);
    }
    assert '/' !in host + mid;
    AfterSlashIs(host + mid, path);
  }

  // What stands between the port and the first slash is ignored, and without a slash the path is empty.
  lemma TargetLoose(scheme: string, host: string, port: string, junk: string, path: Option<string>)
    requires |scheme| == 7 && StartsIgnoringCase(scheme, "http://")
    requires forall i :: 0 <= i < |host| ==> !IsDelim(host[i])
    requires forall i :: 0 <= i < |port| ==> IsDecimal(port[i])
    requires '/' !in junk && (junk == "" || !IsDecimal(junk[0]))
    ensures TargetOf(scheme + (host + (":" + (port + (junk + if path.Some? then "/" + path.value else ""))))) ==
            Some(Target(host, port, if path.Some? then path.value else ""))
  {
    hide HostLen, PortLen, AfterSlash;
    var s := host + (":" + (port + (junk + if path.Some? then "/" + path.value else "")));
    var uri := scheme + s;
    assert uri[7..] == s;
    assert forall i :: 0 <= i < 7 ==> uri[i] == scheme[i];
    LooseAfterScheme(host, port, junk, path);
  }

  lemma LooseAfterScheme(host: string, port: string, junk: string, path: Option<string>)
    requires forall i :: 0 <= i < |host| ==> !IsDelim(host[i])
    requires forall i :: 0 <= i < |port| ==> IsDecimal(port[i])
    requires '/' !in junk && (junk == "" || !IsDecimal(junk[0]))
    ensures var s := host + (":" + (port + (junk + if path.Some? then "/" + path.value else "")));
            && HostLen(s) == |host| < |s| && s[..|host|] == host && s[|host|] == ':'
            && s[|host| + 1..][..PortLen(s[|host| + 1..])] == port && AfterSlash(s) == if path.Some? then path.value else ""
  {
    hide HostLen, PortLen, AfterSlash;
    var tail := junk + if path.Some? then "/" + path.value else "";
    var rest := ":" + (port + tail);
    var s := host + rest;
    HostLenIs(host, rest);
    assert s[|host| + 1..] == port + tail;
    PortLenIs(port, tail);
    LooseSlash(host, port, junk, path);
  }

  lemma LooseSlash(host: string, port: string, junk: string, path: Option<string>)
    requires '/' !in host && (forall i :: 0 <= i < |port| ==> IsDecimal(port[i])) && '/' !in junk
    ensures AfterSlash(host + (":" + (port + (junk + if path.Some? then "/" + path.value else "")))) ==
            if path.Some? then path.value else ""
  {
    hide AfterSlash;
    var front := host + (":" + (port + junk));
    NoSlashInside(host, port, junk);
    if path.Some? {
      Glued(host, port, junk, "/" + path.value);
      Rejoin(front, "/", path.value);
      AfterSlashIs(front, path.value);
    } else {
      Glued(host, port, junk, "");
      NoSlash(front);
    }
  }

  lemma NoSlashInside(host: string, port: string, junk: string)
    requires '/' !in host && (forall i :: 0 <= i < |port| ==> IsDecimal(port[i])) && '/' !in junk
    ensures '/' !in host + (":" + (port + junk))
  {
  }

  lemma Glued(host: string, port: string, junk: string, tail: string)
    ensures host + (":" + (port + (junk + tail))) == (host + (":" + (port + junk))) + tail
    ensures tail == "" ==> (host + (":" + (port + junk))) + tail == host + (":" + (port + junk))
  {
  }

  lemma {:induction false} NoSlash(s: string)
    requires '/' !in s
    ensures AfterSlash(s) == ""
  {
    if s != "" {
      NoSlash(s[1..]);
    }
  }

  // strpbrk(s, " :/\r\n")
  method FindDelim(s: string) returns (len: nat)
    ensures len == HostLen(s)
  {
    len := 0;
    while len < |s| && !IsDelim(s[len])
      invariant len <= |s| && HostLen(s) == len + HostLen(s[len..])
    {
      assert s[len..][1..] == s[len + 1..];
      len := len + 1;
    }
  }

  // The digits of the port, copied one by one
  method ScanPort(s: string) returns (port: string)
    ensures port == s[..PortLen(s)]
  {
    port := "";
    var p := s;
    while p != "" && IsDecimal(p[0])
      invariant s == port + p && PortLen(s) == |port| + PortLen(p)
      decreases |p|
    {
      assert port + p == port + [p[0]] + p[1..];
      port := port + [p[0]];
      p := p[1..];
    }
  }

  // strchr(s, '/'), and what follows it
  method FindPath(s: string) returns (path: string)
    ensures path == AfterSlash(s)
  {
    var p := s;
    while p != "" && p[0] != '/'
      invariant AfterSlash(p) == AfterSlash(s)
      decreases |p|
    {
      p := p[1..];
    }
    path := if p == "" then "" else p[1..];
  }

  // parse_uri
  method ParseUri(uri: string) returns (r: int, hostname: string, pathname: string, port: string)
    ensures r == if TargetOf(uri).Some? then 0 else -1
    ensures r == 0 ==> TargetOf(uri) == Some(Target(hostname, port, pathname))
  {
    hostname, pathname, port := "", "", "";
    if !StartsIgnoringCase(uri, "http://") {
      return -1, hostname, pathname, port;
    }
    var hostbegin := uri[7..];
    var len := FindDelim(hostbegin);
    if len == |hostbegin| {
      return -1, hostname, pathname, port;
    }
    hostname := hostbegin[..len];
    if hostbegin[len] == ':' {
      port := ScanPort(hostbegin[len + 1..]);
    } else {
      port := "80";
    }
    pathname := FindPath(hostbegin);
    return 0, hostname, pathname, port;
  }

  // ---------- header lines ----------

  // The length in force after a line has been read
  function LengthAfter(line: string, length: int): int {
    if StartsIgnoringCase(CStr(line), "Content-Length") && |line| >= 15 then Atoi(line[15..]) else length
  }

  // What becomes of a header: the bytes sent on, the number of bytes read, the last Content-Length, what
  // follows the header in the stream, and whether the header has an end.
  datatype Head = Head(out: string, count: nat, length: int, rest: string, ended: bool)

  function Shift(out: string, count: nat, h: Head): Head {
    h.(out := out + h.out, count := count + h.count)
  }

  function HeadOf(s: string, length: int): (h: Head)
    decreases |s|
  {
    var line := LineOf(s, MAXLINE - 1);
    if line == "" then Head("", 0, length, s, false)
    else if CStr(line) == CRLF then Head(CRLF, |line|, LengthAfter(line, length), s[|line|..], true)
    else Shift(CStr(line), |line|, HeadOf(s[|line|..], LengthAfter(line, length)))
  }

  // Where a loop over the lines of a header stands: `out` and `count` are done, `s` and `length` are next.
  ghost predicate Relayed(h: Head, out: string, count: nat, s: string, length: int) {
    h == Shift(out, count, HeadOf(s, length))
  }

  lemma RelayedNone(s: string)
    ensures Relayed(HeadOf(s, 0), "", 0, s, 0)
  {
    hide HeadOf;
  }

  lemma RelayedMore(h: Head, out: string, count: nat, s: string, length: int)
    requires Relayed(h, out, count, s, length)
    ensures s == "" ==> !h.ended
    ensures s != "" ==>
              var line := LineOf(s, MAXLINE - 1);
              var length' := LengthAfter(line, length);
              if CStr(line) == CRLF
              then h == Head(out + CStr(line), count + |line|, length', s[|line|..], true)
              else Relayed(h, out + CStr(line), count + |line|, s[|line|..], length')
  {
    hide LengthAfter, CStr, LineOf;
    LineNotEmpty(s);
    if s != "" {
      var line := LineOf(s, MAXLINE - 1);
      Rejoin(out, CStr(line), HeadOf(s[|line|..], LengthAfter(line, length)).out);
    }
  }

  // ---------- headers without surprises ----------

  // A header line that fits the buffer and has no NUL
  predicate IsHeaderLine(line: string) {
    1 <= |line| < MAXLINE && line[|line| - 1] == '\n' && line != CRLF && '\0' !in line && '\n' !in line[..|line| - 1]
  }

  function Concat(lines: seq<string>): string {
    if lines == [] then "" else lines[0] + Concat(lines[1..])
  }

  function LengthIn(lines: seq<string>, length: int): int {
    if lines == [] then length else LengthIn(lines[1..], LengthAfter(lines[0], length))
  }

  lemma WholeCStr(s: string)
    requires '\0' !in s
    ensures CStr(s) == s
  {
    assert forall i :: 0 <= i < |s| ==> s[i] in s;
  }

  lemma FirstLine(line: string, rest: string)
    requires 1 <= |line| < MAXLINE && line[|line| - 1] == '\n' && '\n' !in line[..|line| - 1]
    ensures LineOf(line + rest, MAXLINE - 1) == line
  {
    var s, k := line + rest, |line| - 1;
    forall i | 0 <= i < k ensures s[i] != '\n' {
      assert s[i] == line[..k][i];
    }
    LineGrows(s, k, MAXLINE - 1);
    assert s[..k + 1] == line;
  }

  // Such header lines are sent on as they are, up to the first empty line, and are all counted.
  lemma {:induction false} PlainHead(lines: seq<string>, body: string, length: int)
    requires forall i :: 0 <= i < |lines| ==> IsHeaderLine(lines[i])
    ensures HeadOf(Concat(lines) + CRLF + body, length) ==
            Head(Concat(lines) + CRLF, |Concat(lines)| + 2, LengthIn(lines, length), body, true)
  {
    hide LengthAfter, HeadOf, LineOf, CStr;
    var s := Concat(lines) + CRLF + body;
    if lines == [] {
      assert s == CRLF + body;
      FirstLine(CRLF, body);
      HeadStep(CRLF, body, length);
      CrlfIsNoLength(length);
    } else {
      var line, more := lines[0], lines[1..];
      var rest := Concat(more) + CRLF + body;
      assert s == line + rest;
      FirstLine(line, rest);
      HeadStep(line, rest, length);
      PlainHead(more, body, LengthAfter(line, length));
      assert line + (Concat(more) + CRLF) == Concat(lines) + CRLF;
    }
  }

  // Without an empty line the header has no end.
  lemma {:induction false} HeadWithoutEnd(lines: seq<string>, length: int)
    requires forall i :: 0 <= i < |lines| ==> IsHeaderLine(lines[i])
    ensures HeadOf(Concat(lines), length) == Head(Concat(lines), |Concat(lines)|, LengthIn(lines, length), "", false)
  {
    hide LengthAfter, LineOf, CStr;
    if lines == [] {
      LineNotEmpty("");
    } else {
      var line, rest := lines[0], Concat(lines[1..]);
      FirstLine(line, rest);
      HeadStep(line, rest, length);
      HeadWithoutEnd(lines[1..], LengthAfter(line, length));
    }
  }

  lemma HeadStep(line: string, rest: string, length: int)
    requires line != "" && '\0' !in line && LineOf(line + rest, MAXLINE - 1) == line
    ensures HeadOf(line + rest, length) ==
            if line == CRLF then Head(CRLF, |line|, LengthAfter(line, length), rest, true)
            else Shift(line, |line|, HeadOf(rest, LengthAfter(line, length)))
  {
    hide LengthAfter, LineOf, CStr;
    WholeCStr(line);
    assert (line + rest)[|line|..] == rest;
  }

  lemma CrlfIsNoLength(length: int)
    ensures LengthAfter(CRLF, length) == length
  {
  }

  // What stands behind a NUL in a header line is counted but not sent, and its newline is lost with it.
  lemma NulCuts(front: string, junk: string, rest: string, length: int)
    requires '\0' !in front && '\n' !in front && '\n' !in junk && |front| + |junk| + 2 < MAXLINE
    requires !StartsIgnoringCase(front, "Content-Length")
    ensures HeadOf(front + "\0" + junk + "\n" + rest, length) == Shift(front, |front| + |junk| + 2, HeadOf(rest, length))
  {
    hide LineOf, HeadOf;
    var line := front + "\0" + junk + "\n";
    var s := line + rest;
    assert line[..|line| - 1] == front + "\0" + junk;
    FirstLine(line, rest);
    forall i | 0 <= i < |front| ensures line[i] != '\0' {
      assert line[i] == front[i];
    }
    LenIs(line, |front|);
    assert CStr(line) == front && s[|line|..] == rest && front != CRLF;
    HeadUnfolds(s, length);
  }

  lemma HeadUnfolds(s: string, length: int)
    ensures var line := LineOf(s, MAXLINE - 1);
            HeadOf(s, length) ==
            if line == "" then Head("", 0, length, s, false)
            else if CStr(line) == CRLF then Head(CRLF, |line|, LengthAfter(line, length), s[|line|..], true)
            else Shift(CStr(line), |line|, HeadOf(s[|line|..], LengthAfter(line, length)))
  {
    hide LineOf, CStr, LengthAfter;
  }

  // ---------- which lengths are declared ----------

  // A Content-Length field: name, colon, blanks, a decimal number, and what follows it
  ghost predicate IsLengthField(line: string, name: string, blanks: string, digits: string, tail: string) {
    && line == name + (":" + (blanks + (digits + tail)))
    && |name| == 14 && StartsIgnoringCase(name, "Content-Length") && '\0' !in line
    && (forall i :: 0 <= i < |blanks| ==> blanks[i] == ' ' || blanks[i] == '\t')
    && IsNumber(digits) && (tail == "" || !IsDecimal(tail[0]))
  }

  ghost predicate Declares(line: string, n: nat) {
    n <= 0x7fff_ffff && exists name, blanks, digits, tail ::
      IsLengthField(line, name, blanks, digits, tail) && Value(digits, 10) == n
  }

  predicate MentionsLength(line: string) {
    StartsIgnoringCase(line, "Content-Length")
  }

  // atoi reads the number of such a field.
  lemma DeclaredLength(line: string, n: nat, length: int)
    requires Declares(line, n)
    ensures LengthAfter(line, length) == n
  {
    hide Atoi, Value;
    var name, blanks, digits, tail :| IsLengthField(line, name, blanks, digits, tail) && Value(digits, 10) == n;
    WholeCStr(line);
    assert "" + (digits + tail) == digits + tail;
    assert line[15..] == blanks + (digits + tail);
    assert forall i :: 0 <= i < 14 ==> line[i] == name[i];
    AtoiReads(blanks, "", digits, tail);
  }

  lemma NoLength(line: string, length: int)
    requires '\0' !in line && !MentionsLength(line)
    ensures LengthAfter(line, length) == length
  {
    hide Atoi;
    WholeCStr(line);
  }

  // When all Content-Length fields agree, their value is in force; without any, the old length is.
  lemma {:induction false} LengthsAgree(lines: seq<string>, n: nat, length: int)
    requires forall i :: 0 <= i < |lines| ==> '\0' !in lines[i] && (MentionsLength(lines[i]) ==> Declares(lines[i], n))
    ensures LengthIn(lines, length) ==
            if exists i :: 0 <= i < |lines| && MentionsLength(lines[i]) then n else length
  {
    hide LengthAfter, Declares, MentionsLength;
    if lines != [] {
      var rest := lines[1..];
      if MentionsLength(lines[0]) {
        DeclaredLength(lines[0], n, length);
      } else {
        NoLength(lines[0], length);
        assert forall i :: 1 <= i < |lines| ==> lines[i] == rest[i - 1];
      }
      LengthsAgree(rest, n, LengthAfter(lines[0], length));
    }
  }

  // Otherwise the last one wins, where section 6.3 asks for an error.
  lemma {:induction false} LastLengthWins(lines: seq<string>, line: string, n: nat, length: int)
    requires Declares(line, n)
    ensures LengthIn(lines + [line], length) == n
  {
    hide LengthAfter, Declares;
    var all := lines + [line];
    if lines == [] {
      DeclaredLength(line, n, length);
      assert all[1..] == [];
    } else {
      assert all[1..] == lines[1..] + [line];
      LastLengthWins(lines[1..], line, n, LengthAfter(lines[0], length));
    }
  }

  // ---------- the steps of doit ----------

  // Rio_readlineb_w: an error looks like the end of the file.
  method ReadlinebW(rp: RioBuffer, buf: array<char>) returns (size: int)
    requires rp.Valid() && buf.Length == MAXLINE && buf != rp.buf
    modifies rp`cnt, rp`bufptr, rp.fd`unread, rp.fd`readScript, rp.buf, buf
    ensures rp.Valid() && 0 <= size < MAXLINE
    ensures var s := old(rp.Pending()); var line := LineOf(s, MAXLINE - 1);
            && (size > 0 ==> buf[..size] == line && buf[size] == '\0' && s != "" && line != "" && rp.Pending() == s[|line|..])
            && (NoFailure(old(rp.fd.readScript)) ==> NoFailure(rp.fd.readScript) && (size == 0 <==> s == ""))
            && (size == 0 && s == "" ==> rp.Pending() == "")
  {
    hide NoFailure;
    ghost var s := rp.Pending();
    size := rp.Readlineb(buf, MAXLINE);
    if size < 0 {
      size := 0;
    }
    LineNotEmpty(s);
  }

  lemma LineNotEmpty(s: string)
    ensures LineOf(s, MAXLINE - 1) == "" <==> s == ""
  {
  }

  // Rio_readnb_w(rp, buf, 1)
  method ReadByteW(rp: RioBuffer, buf: array<char>) returns (size: int)
    requires rp.Valid() && buf.Length == MAXLINE && buf != rp.buf
    modifies rp`cnt, rp`bufptr, rp.fd`unread, rp.fd`readScript, rp.buf, buf
    ensures rp.Valid() && (size == 0 || size == 1)
    ensures size == 1 ==> old(rp.Pending()) == [buf[0]] + rp.Pending()
    ensures NoFailure(old(rp.fd.readScript)) ==> NoFailure(rp.fd.readScript) && (size == 0 <==> old(rp.Pending()) == "")
    ensures size == 0 && old(rp.Pending()) == "" ==> rp.Pending() == ""
  {
    hide NoFailure;
    size := rp.Readnb(buf, 1);
    if size < 0 {
      size := 0;
    }
    assert size == 1 ==> buf[..1] == [buf[0]];
  }

  // The line that was read, as a C string
  lemma LineInBuffer(buf: seq<char>, n: nat)
    requires n < |buf| && buf[n] == '\0'
    ensures CStr(buf) == CStr(buf[..n]) && Len(buf) <= n
  {
    var line := buf[..n];
    var k := Len(line);
    assert k < n ==> line[k] == '\0';
    assert forall i :: 0 <= i < k ==> buf[i] == line[i] != '\0';
    LenIs(buf, k);
    assert line[..k] == buf[..k];
  }

  // Write the string in the buffer, as Rio_writen_w(fd, buf, strlen(buf)) does; true if all of it is written.
  method WriteString(fd: Descriptor, buf: array<char>, ghost line: string) returns (ok: bool)
    requires buf.Length == MAXLINE && |line| < MAXLINE && buf[..|line|] == line && buf[|line|] == '\0'
    modifies fd`written, fd`writeScript
    ensures ok ==> fd.written == old(fd.written) + CStr(line)
    ensures NoFailure(old(fd.writeScript)) ==> ok && NoFailure(fd.writeScript)
  {
    hide NoFailure;
    LineInBuffer(buf[..], |line|);
    var n := StrLen(buf);
    assert buf[..][..|line|] == line;
    assert buf[..n] == buf[..][..n];
    var m := RioWriten(fd, buf, n);
    ok := m == n;
  }

  // The tests doit makes on a header line in the buffer
  method Inspect(buf: array<char>, n: nat, length: int) returns (length': int, end: bool)
    requires buf.Length == MAXLINE && n < MAXLINE && buf[n] == '\0'
    ensures length' == LengthAfter(buf[..n], length) && end == (CStr(buf[..n]) == CRLF)
  {
    LineInBuffer(buf[..], n);
    assert buf[..][..n] == buf[..n];
    var c := StrLen(buf);
    var line := buf[..c];
    assert line == CStr(buf[..n]);
    length' := length;
    if StartsIgnoringCase(line, "Content-Length") && n >= 15 {
      length' := Atoi(buf[15..n]);
      assert buf[15..n] == buf[..n][15..];
    }
    end := line == CRLF;
  }

  // One round of the loops over header lines: read a line, send it on and look at it.
  method RelayLine(rp: RioBuffer, fd: Descriptor, buf: array<char>, length: int)
    returns (n: nat, sent: bool, length': int, end: bool)
    requires rp.Valid() && buf.Length == MAXLINE && buf != rp.buf && fd != rp.fd
    modifies rp`cnt, rp`bufptr, rp.fd`unread, rp.fd`readScript, rp.buf, buf, fd`written, fd`writeScript
    ensures rp.Valid()
    ensures var s := old(rp.Pending()); var line := LineOf(s, MAXLINE - 1);
            && (n > 0 ==> s != "" && n == |line| && rp.Pending() == s[n..] && length' == LengthAfter(line, length))
            && (n > 0 ==> end == (CStr(line) == CRLF))
            && (n > 0 && sent ==> fd.written == old(fd.written) + CStr(line))
            && (NoFailure(old(rp.fd.readScript)) ==> (n == 0 <==> s == ""))
    ensures n == 0 ==> fd.written == old(fd.written) && length' == length
    ensures NoFailure(old(rp.fd.readScript)) ==> NoFailure(rp.fd.readScript)
    ensures NoFailure(old(fd.writeScript)) ==> sent && NoFailure(fd.writeScript)
  {
    hide NoFailure, LengthAfter, CStr, LineOf;
    ghost var s := rp.Pending();
    n, sent, length', end := 0, true, length, false;
    n := ReadlinebW(rp, buf);
    if n > 0 {
      sent := WriteString(fd, buf, LineOf(s, MAXLINE - 1));
      length', end := Inspect(buf, n, length);
    }
  }

  // The loop that sends the request header to the server; it gives up when a write fails.
  method SendRequestHeader(rp: RioBuffer, server: Descriptor, buf: array<char>) returns (ok: bool, reqSize: int)
    requires rp.Valid() && buf.Length == MAXLINE && buf != rp.buf && server != rp.fd
    modifies rp`cnt, rp`bufptr, rp.fd`unread, rp.fd`readScript, rp.buf, buf, server`written, server`writeScript
    ensures rp.Valid()
    ensures var h := HeadOf(old(rp.Pending()), 0);
            && (ok ==> h.ended && reqSize == h.length && rp.Pending() == h.rest && server.written == old(server.written) + h.out)
            && (NoFailure(old(rp.fd.readScript)) && NoFailure(old(server.writeScript)) ==> (ok <==> h.ended))
    ensures NoFailure(old(rp.fd.readScript)) ==> NoFailure(rp.fd.readScript)
    ensures NoFailure(old(server.writeScript)) ==> NoFailure(server.writeScript)
  {
    hide NoFailure, LengthAfter, CStr, LineOf, HeadOf, Relayed, RioBuffer.Pending, RioBuffer.Valid;
    reqSize := 0;
    ghost var out, total: nat := "", 0;
    ghost var h := HeadOf(rp.Pending(), 0);
    RelayedNone(rp.Pending());
    while true
      invariant rp.Valid() && Relayed(h, out, total, rp.Pending(), reqSize)
      invariant server.written == old(server.written) + out
      invariant NoFailure(old(rp.fd.readScript)) ==> NoFailure(rp.fd.readScript)
      invariant NoFailure(old(server.writeScript)) ==> NoFailure(server.writeScript)
      decreases |rp.Pending()|
    {
      ghost var line := LineOf(rp.Pending(), MAXLINE - 1);
      RelayedMore(h, out, total, rp.Pending(), reqSize);
      var n, sent, end;
      n, sent, reqSize, end := RelayLine(rp, server, buf, reqSize);
      if n == 0 || !sent {
        return false, reqSize;
      }
      if end {
        return true, reqSize;
      }
      out, total := out + CStr(line), total + |line|;
    }
  }

  // The loop that sends the response header to the client, whether or not the writes succeed.
  method SendResponseHeader(rp: RioBuffer, client: Descriptor, buf: array<char>)
    returns (ok: bool, respSize: int, total: nat)
    requires rp.Valid() && buf.Length == MAXLINE && buf != rp.buf && client != rp.fd
    modifies rp`cnt, rp`bufptr, rp.fd`unread, rp.fd`readScript, rp.buf, buf, client`written, client`writeScript
    ensures rp.Valid()
    ensures var h := HeadOf(old(rp.Pending()), 0);
            && (ok ==> h.ended && respSize == h.length && total == h.count && rp.Pending() == h.rest)
            && (ok && NoFailure(old(client.writeScript)) ==> client.written == old(client.written) + h.out)
            && (NoFailure(old(rp.fd.readScript)) ==> (ok <==> h.ended))
    ensures NoFailure(old(rp.fd.readScript)) ==> NoFailure(rp.fd.readScript)
    ensures NoFailure(old(client.writeScript)) ==> NoFailure(client.writeScript)
  {
    hide NoFailure, LengthAfter, CStr, LineOf, HeadOf, Relayed, RioBuffer.Pending, RioBuffer.Valid;
    respSize, total := 0, 0;
    ghost var out := "";
    ghost var h := HeadOf(rp.Pending(), 0);
    RelayedNone(rp.Pending());
    while true
      invariant rp.Valid() && Relayed(h, out, total, rp.Pending(), respSize)
      invariant NoFailure(old(client.writeScript)) ==> NoFailure(client.writeScript) && client.written == old(client.written) + out
      invariant NoFailure(old(rp.fd.readScript)) ==> NoFailure(rp.fd.readScript)
      decreases |rp.Pending()|
    {
      ghost var line := LineOf(rp.Pending(), MAXLINE - 1);
      RelayedMore(h, out, total, rp.Pending(), respSize);
      var n, sent, end;
      n, sent, respSize, end := RelayLine(rp, client, buf, respSize);
      if n == 0 {
        return false, respSize, total;
      }
      total := total + n;
      if end {
        return true, respSize, total;
      }
      out := out + CStr(line);
    }
  }

  // The loops that pass on a body of `size` bytes, one at a time
  method SendBody(rp: RioBuffer, fd: Descriptor, buf: array<char>, size: int) returns (ok: bool)
    requires rp.Valid() && buf.Length == MAXLINE && buf != rp.buf && fd != rp.fd
    modifies rp`cnt, rp`bufptr, rp.fd`unread, rp.fd`readScript, rp.buf, buf, fd`written, fd`writeScript
    ensures rp.Valid()
    ensures var s := old(rp.Pending()); var n := if size > 0 then size else 0;
            && (ok ==> n <= |s| && fd.written == old(fd.written) + s[..n] && rp.Pending() == s[n..])
            && (NoFailure(old(rp.fd.readScript)) && NoFailure(old(fd.writeScript)) ==> (ok <==> n <= |s|))
    ensures NoFailure(old(rp.fd.readScript)) ==> NoFailure(rp.fd.readScript)
    ensures NoFailure(old(fd.writeScript)) ==> NoFailure(fd.writeScript)
  {
    hide NoFailure;
    ghost var s := rp.Pending();
    var i := 0;
    while i < size
      invariant rp.Valid() && 0 <= i <= |s| && (i <= size || i == 0)
      invariant rp.Pending() == s[i..] && fd.written == old(fd.written) + s[..i]
      invariant NoFailure(old(rp.fd.readScript)) ==> NoFailure(rp.fd.readScript)
      invariant NoFailure(old(fd.writeScript)) ==> NoFailure(fd.writeScript)
    {
      ghost var rest := rp.Pending();
      var n := ReadByteW(rp, buf);
      if n == 0 {
        return false;
      }
      assert s[i] == rest[0] == buf[0] && s[i + 1..] == rest[1..] == rp.Pending();
      var m := RioWriten(fd, buf, 1);
      if m != 1 {
        return false;
      }
      assert buf[..1] == [buf[0]] && s[..i + 1] == s[..i] + [s[i]];
      i := i + 1;
    }
    return true;
  }

  // ---------- the request line ----------

  // sscanf(s, "%s %s %s", ...)
  function Tokens(s: string): (r: Option<(string, string, string)>)
    ensures r.Some? ==> |r.value.0| + |r.value.1| + |r.value.2| <= |s|
  {
    var s1 := SkipSpace(s);
    var n1 := TokenLen(s1);
    var s2 := SkipSpace(s1[n1..]);
    var n2 := TokenLen(s2);
    var s3 := SkipSpace(s2[n2..]);
    var n3 := TokenLen(s3);
    if n3 == 0 then None else Some((s1[..n1], s2[..n2], s3[..n3]))
  }

  // doit looks at the last two characters.
  predicate Terminated(c: string) {
    (|c| >= 1 && c[|c| - 1] == '\n') || (|c| >= 2 && c[|c| - 2] == '\r')
  }

  // The request line in origin-form, section 3.2.1, with where to send it and what follows it
  datatype Request = Request(line: string, target: Target, rest: string)

  function RequestOf(s: string): Option<Request> {
    var line := LineOf(s, MAXLINE - 1);
    var c := CStr(line);
    if line == "" || !Terminated(c) then None else
      var (meth, uri, version) :- Tokens(c);
      if version != "HTTP/1.1" then None else
        var target :- TargetOf(uri);
        Some(Request(meth + " /" + target.path + " " + version + CRLF, target, s[|line|..]))
  }

  ghost predicate IsToken(s: string) {
    s != "" && forall i :: 0 <= i < |s| ==> !IsSpace(s[i]) && s[i] != '\0'
  }

  ghost predicate IsGap(s: string) {
    forall i :: 0 <= i < |s| ==> s[i] == ' ' || s[i] == '\t'
  }

  lemma NextToken(gap: string, token: string, rest: string)
    requires IsGap(gap) && IsToken(token) && (rest == "" || IsSpace(rest[0]))
    ensures var s := SkipSpace(gap + (token + rest));
            s == token + rest && TokenLen(s) == |token| > 0 && s[..|token|] == token && s[|token|..] == rest
  {
    hide SkipSpace, TokenLen;
    assert (token + rest)[0] == token[0];
    SkipSpaceOf(gap, token + rest);
    TokenLenOf(token, rest);
  }

  // Three words and what follows them
  function ThreeWords(lead: string, a: string, gap: string, b: string, gap': string, c: string, end: string): string {
    lead + (a + (gap + (b + (gap' + (c + end)))))
  }

  lemma ReadTokens(lead: string, a: string, gap: string, b: string, gap': string, c: string, end: string)
    requires IsGap(lead) && IsGap(gap) && IsGap(gap') && gap != "" && gap' != ""
    requires IsToken(a) && IsToken(b) && IsToken(c) && (end == "" || IsSpace(end[0]))
    ensures Tokens(ThreeWords(lead, a, gap, b, gap', c, end)) == Some((a, b, c))
  {
    hide SkipSpace, TokenLen, IsToken;
    assert IsGap("");
    var s3 := gap' + (c + end);
    var s2 := gap + (b + s3);
    assert s3[0] == gap'[0] && s2[0] == gap[0];
    NextToken(lead, a, s2);
    NextToken(gap, b, s3);
    NextToken(gap', c, end);
  }

  // One or two words are too few.
  lemma TooFewTokens(lead: string, a: string, gap: string, b: string, end: string)
    requires IsGap(lead) && IsGap(gap) && gap != "" && IsToken(a) && (forall i :: 0 <= i < |end| ==> IsSpace(end[i]))
    ensures Tokens(lead + (a + end)) == None
    ensures IsToken(b) ==> Tokens(lead + (a + (gap + (b + end)))) == None
  {
    hide SkipSpace, TokenLen, IsToken;
    NoToken(end);
    NextToken(lead, a, end);
    if IsToken(b) {
      assert (gap + (b + end))[0] == gap[0];
      NextToken(lead, a, gap + (b + end));
      NextToken(gap, b, end);
    }
  }

  lemma NoToken(end: string)
    requires forall i :: 0 <= i < |end| ==> IsSpace(end[i])
    ensures SkipSpace(end) == "" && TokenLen("") == 0 && SkipSpace("") == ""
  {
    assert end + "" == end;
    SkipSpaceOf(end, "");
  }

  // The request line as a client writes it, and what is made of it: the target's path behind the same method
  lemma RequestRead(lead: string, meth: string, gap: string, uri: string, gap': string, version: string, cr: string,
                    rest: string)
    requires IsGap(lead) && IsGap(gap) && IsGap(gap') && gap != "" && gap' != "" && (cr == "" || cr == "\r")
    requires IsToken(meth) && IsToken(uri) && IsToken(version)
    requires |ThreeWords(lead, meth, gap, uri, gap', version, cr + "\n")| < MAXLINE
    ensures RequestOf(ThreeWords(lead, meth, gap, uri, gap', version, cr + "\n") + rest) ==
            if version != "HTTP/1.1" || TargetOf(uri).None? then None
            else Some(Request(meth + " /" + TargetOf(uri).value.path + " HTTP/1.1\r\n", TargetOf(uri).value, rest))
  {
    hide Tokens, TargetOf, LineOf, CStr;
    var front := ThreeWords(lead, meth, gap, uri, gap', version, cr);
    var line := ThreeWords(lead, meth, gap, uri, gap', version, cr + "\n");
    EndOfLine(lead, meth, gap, uri, gap', version, cr);
    PlainFront(lead, meth, gap, uri, gap', version, cr);
    FirstLine(line, rest);
    WholeCStr(line);
    assert (line + rest)[|line|..] == rest;
    ReadTokens(lead, meth, gap, uri, gap', version, cr + "\n");
    assert " HTTP/1.1\r\n" == " " + "HTTP/1.1" + CRLF;
    if TargetOf(uri).Some? {
      var path := TargetOf(uri).value.path;
      assert meth + " /" + path + " " + "HTTP/1.1" + CRLF == meth + " /" + path + " HTTP/1.1\r\n";
    }
  }

  // Without a line end there is no request.
  lemma NoLineEnd(s: string)
    requires '\n' !in s && '\r' !in s
    ensures RequestOf(s) == None
  {
    hide LineOf, Tokens, TargetOf;
    var c := CStr(LineOf(s, MAXLINE - 1));
    assert c <= s;
    assert forall i :: 0 <= i < |c| ==> c[i] == s[i];
  }

  lemma EndOfLine(lead: string, a: string, gap: string, b: string, gap': string, c: string, cr: string)
    ensures var front, line := ThreeWords(lead, a, gap, b, gap', c, cr), ThreeWords(lead, a, gap, b, gap', c, cr + "\n");
            line == front + "\n" && line[..|line| - 1] == front
  {
  }

  lemma PlainFront(lead: string, a: string, gap: string, b: string, gap': string, c: string, cr: string)
    requires IsGap(lead) && IsGap(gap) && IsGap(gap') && IsToken(a) && IsToken(b) && IsToken(c) && (cr == "" || cr == "\r")
    ensures var front := ThreeWords(lead, a, gap, b, gap', c, cr); '\0' !in front && '\n' !in front
  {
  }

  // From the absolute-form to the origin-form: the host is left out and the path is kept.
  lemma RequestRewritten(meth: string, scheme: string, host: string, port: Option<string>, path: string, rest: string)
    requires |scheme| == 7 && StartsIgnoringCase(scheme, "http://")
    requires forall i :: 0 <= i < |host| ==> !IsDelim(host[i])
    requires port.Some? ==> forall i :: 0 <= i < |port.value| ==> IsDecimal(port.value[i])
    requires var uri := scheme + (host + (if port.Some? then ":" + port.value else "") + "/" + path);
             IsToken(meth) && IsToken(uri) && |meth| + |uri| + 12 < MAXLINE
    ensures var uri := scheme + (host + (if port.Some? then ":" + port.value else "") + "/" + path);
            RequestOf(meth + " " + uri + " HTTP/1.1\r\n" + rest) ==
            Some(Request(meth + " /" + path + " HTTP/1.1\r\n", Target(host, if port.Some? then port.value else "80", path), rest))
  {
    hide RequestOf, TargetOf, IsToken, StartsIgnoringCase;
    var uri := scheme + (host + (if port.Some? then ":" + port.value else "") + "/" + path);
    OneBlankEach(meth, uri);
    VersionToken();
    TargetRoundTrip(scheme, host, port, path);
    RequestRead("", meth, " ", uri, " ", "HTTP/1.1", "\r", rest);
  }

  lemma OneBlankEach(meth: string, uri: string)
    ensures ThreeWords("", meth, " ", uri, " ", "HTTP/1.1", "\r" + "\n") == meth + " " + uri + " HTTP/1.1\r\n"
  {
  }

  lemma VersionToken()
    ensures IsToken("HTTP/1.1")
  {
  }

  // The new line is shorter than the old one: the buffer holds it.
  lemma RequestFits(s: string)
    ensures RequestOf(s).Some? ==> |RequestOf(s).value.line| < MAXLINE
  {
    hide LineOf, CStr, Tokens, TargetOf, Terminated;
    var line := LineOf(s, MAXLINE - 1);
    assert |CStr(line)| <= |line|;
  }

  method ReadRequest(rp: RioBuffer, buf: array<char>) returns (r: Option<(string, Target)>)
    requires rp.Valid() && buf.Length == MAXLINE && buf != rp.buf
    modifies rp`cnt, rp`bufptr, rp.fd`unread, rp.fd`readScript, rp.buf, buf
    ensures rp.Valid()
    ensures var spec := RequestOf(old(rp.Pending()));
            && (r.Some? ==> spec.Some? && r.value == (spec.value.line, spec.value.target) && rp.Pending() == spec.value.rest)
            && (NoFailure(old(rp.fd.readScript)) ==> (r.Some? <==> spec.Some?))
    ensures NoFailure(old(rp.fd.readScript)) ==> NoFailure(rp.fd.readScript)
  {
    hide NoFailure, LineOf, Tokens, TargetOf, Terminated;
    ghost var s := rp.Pending();
    LineNotEmpty(s);
    var n := ReadlinebW(rp, buf);
    if n == 0 {
      return None;
    }
    LineInBuffer(buf[..], n);
    assert buf[..][..n] == buf[..n];
    var len := StrLen(buf);
    var c := buf[..len];
    assert c == CStr(LineOf(s, MAXLINE - 1));
    if !Terminated(c) {
      return None;
    }
    var tokens := Tokens(c);
    if tokens == None {
      return None;
    }
    var (meth, uri, version) := tokens.value;
    if version != "HTTP/1.1" {
      return None;
    }
    var parsed, hostname, pathname, port := ParseUri(uri);
    if parsed < 0 {
      return None;
    }
    return Some((meth + " /" + pathname + " " + version + CRLF, Target(hostname, port, pathname)));
  }

  // sprintf(buf, "%s", s)
  method Fill(buf: array<char>, s: string)
    requires |s| < buf.Length
    modifies buf
    ensures buf[..|s|] == s && buf[|s|] == '\0'
  {
    forall i | 0 <= i < |s| {
      buf[i] := s[i];
    }
    buf[|s|] := '\0';
  }

  // ---------- doit ----------

  // The bytes that make up a message: its header and as much body as the header says
  function BodySize(h: Head): nat {
    if h.length > 0 then h.length else 0
  }

  predicate Complete(h: Head) {
    h.ended && BodySize(h) <= |h.rest|
  }

  function Message(h: Head): string
    requires Complete(h)
  {
    h.out + h.rest[..BodySize(h)]
  }

  // What doit does when it goes through to the end
  predicate Serves(fromClient: string, fromServer: string) {
    && RequestOf(fromClient).Some? && Complete(HeadOf(RequestOf(fromClient).value.rest, 0))
    && Complete(HeadOf(fromServer, 0))
  }

  // The first half of doit: the request goes to the server.
  method SendRequest(rp: RioBuffer, line: string, server: Descriptor, buf: array<char>) returns (ok: bool)
    requires rp.Valid() && buf.Length == MAXLINE && buf != rp.buf && server != rp.fd && |line| < MAXLINE && '\0' !in line
    modifies rp`cnt, rp`bufptr, rp.fd`unread, rp.fd`readScript, rp.buf, buf, server`written, server`writeScript
    ensures var h := HeadOf(old(rp.Pending()), 0);
            && (ok ==> Complete(h))
            && (ok && NoFailure(old(server.writeScript)) ==> server.written == old(server.written) + (line + Message(h)))
            && (NoFailure(old(rp.fd.readScript)) && NoFailure(old(server.writeScript)) ==> (ok <==> Complete(h)))
    ensures NoFailure(old(server.writeScript)) ==> NoFailure(server.writeScript)
  {
    hide NoFailure, HeadOf, RioBuffer.Pending, RioBuffer.Valid;
    Fill(buf, line);
    WholeCStr(line);
    var sent := WriteString(server, buf, line);
    var reqSize;
    ok, reqSize := SendRequestHeader(rp, server, buf);
    if !ok {
      return;
    }
    ok := SendBody(rp, server, buf, reqSize);
  }

  // The second half of doit: the response goes to the client.
  method SendResponse(rp: RioBuffer, client: Descriptor, buf: array<char>) returns (ok: bool, size: nat)
    requires rp.Valid() && buf.Length == MAXLINE && buf != rp.buf && client != rp.fd
    modifies rp`cnt, rp`bufptr, rp.fd`unread, rp.fd`readScript, rp.buf, buf, client`written, client`writeScript
    ensures var h := HeadOf(old(rp.Pending()), 0);
            && (ok ==> Complete(h) && size == h.count + BodySize(h))
            && (ok && NoFailure(old(client.writeScript)) ==> client.written == old(client.written) + Message(h))
            && (NoFailure(old(rp.fd.readScript)) && NoFailure(old(client.writeScript)) ==> (ok <==> Complete(h)))
  {
    hide NoFailure, HeadOf, RioBuffer.Pending, RioBuffer.Valid;
    var respSize;
    ok, respSize, size := SendResponseHeader(rp, client, buf);
    if !ok {
      return;
    }
    if respSize > 0 {
      size := size + respSize;
    }
    ok := SendBody(rp, client, buf, respSize);
  }

  // doit; `server` is what Open_clientfd would connect to, and `connected` whether it does.  The size stays
  // 0 unless everything went through.
  method DoIt(client: Descriptor, server: Descriptor, connected: bool) returns (size: nat)
    requires client != server
    modifies client, server
    ensures var req := RequestOf(old(client.unread)); var resp := HeadOf(old(server.unread), 0);
            && (size > 0 ==> connected && Serves(old(client.unread), old(server.unread)) && size == resp.count + BodySize(resp))
            && (size > 0 && NoFailure(old(client.writeScript)) ==> client.written == old(client.written) + Message(resp))
            && (size > 0 && NoFailure(old(server.writeScript)) ==>
                  server.written == old(server.written) + (req.value.line + Message(HeadOf(req.value.rest, 0))))
            && (connected && NoFailure(old(client.readScript + client.writeScript + server.readScript + server.writeScript)) ==>
                  (size > 0 <==> Serves(old(client.unread), old(server.unread))))
  {
    hide HeadOf, RequestOf;
    ghost var toClient, toServer := client.unread, server.unread;
    size := 0;
    var buf := new char[MAXLINE];
    var clientRio := new RioBuffer(client);
    var request := ReadRequest(clientRio, buf);
    if request == None || !connected {
      return;
    }
    RequestFits(toClient);
    RequestHasNoNul(toClient);
    var ok := SendRequest(clientRio, request.value.0, server, buf);
    if !ok {
      return;
    }
    var serverRio := new RioBuffer(server);
    var total;
    ok, total := SendResponse(serverRio, client, buf);
    if !ok {
      return;
    }
    CountPositive(toServer, 0);
    size := total;
  }

  lemma RequestHasNoNul(s: string)
    ensures RequestOf(s).Some? ==> '\0' !in RequestOf(s).value.line
  {
    hide LineOf, TargetOf, Terminated;
    var c := CStr(LineOf(s, MAXLINE - 1));
    if RequestOf(s).Some? {
      var (meth, uri, version) := Tokens(c).value;
      TokensInside(c);
      PathInside(uri);
    }
  }

  lemma {:induction false} SkipInside(s: string)
    ensures forall c :: c in SkipSpace(s) ==> c in s
  {
    if s != "" && IsSpace(s[0]) {
      SkipInside(s[1..]);
    }
  }

  lemma PartInside(s: string, n: nat)
    requires n <= |s|
    ensures forall c :: c in s[..n] || c in s[n..] ==> c in s
  {
  }

  lemma TokensInside(s: string)
    ensures Tokens(s).Some? ==>
              forall c :: c in Tokens(s).value.0 || c in Tokens(s).value.1 || c in Tokens(s).value.2 ==> c in s
  {
    hide SkipSpace, TokenLen;
    var s1 := SkipSpace(s);
    var t1 := s1[TokenLen(s1)..];
    var s2 := SkipSpace(t1);
    var t2 := s2[TokenLen(s2)..];
    SkipInside(s);
    SkipInside(t1);
    SkipInside(t2);
    PartInside(s1, TokenLen(s1));
    PartInside(s2, TokenLen(s2));
    PartInside(SkipSpace(t2), TokenLen(SkipSpace(t2)));
  }

  lemma {:induction false} SlashInside(s: string)
    ensures forall c :: c in AfterSlash(s) ==> c in s
  {
    if s != "" && s[0] != '/' {
      SlashInside(s[1..]);
    }
  }

  lemma PathInside(uri: string)
    ensures TargetOf(uri).Some? ==> forall c :: c in TargetOf(uri).value.path ==> c in uri
  {
    if |uri| >= 7 {
      SlashInside(uri[7..]);
    }
  }

  lemma CountPositive(s: string, length: int)
    ensures HeadOf(s, length).ended ==> HeadOf(s, length).count > 0
  {
    hide LengthAfter, CStr;
  }

  // For a response of plain header lines, an empty line and a body that is as long as the last
  // Content-Length says, the client gets exactly these bytes.
  lemma PlainResponse(lines: seq<string>, body: string, more: string)
    requires forall i :: 0 <= i < |lines| ==> IsHeaderLine(lines[i])
    requires |body| == if LengthIn(lines, 0) > 0 then LengthIn(lines, 0) else 0
    ensures var h := HeadOf(Concat(lines) + CRLF + (body + more), 0);
            && Complete(h) && Message(h) == Concat(lines) + CRLF + body
            && h.count + BodySize(h) == |Message(h)|
  {
    PlainHead(lines, body + more, 0);
    assert (body + more)[..|body|] == body;
  }

  // The message is that of rule 6 of section 6.3 when there is a Content-Length and all of them agree; the
  // rules before it, Transfer-Encoding among them, are not looked at.
  lemma FramedByLength(lines: seq<string>, n: nat, body: string, more: string)
    requires forall i :: 0 <= i < |lines| ==> IsHeaderLine(lines[i]) && (MentionsLength(lines[i]) ==> Declares(lines[i], n))
    requires exists i :: 0 <= i < |lines| && MentionsLength(lines[i])
    requires |body| == n
    ensures var h := HeadOf(Concat(lines) + CRLF + (body + more), 0);
            Complete(h) && Message(h) == Concat(lines) + CRLF + body
  {
    hide MentionsLength, Declares, HeadOf, Message, Complete;
    LengthsAgree(lines, n, 0);
    PlainResponse(lines, body, more);
  }

  // Without a Content-Length the body is dropped, where rule 8 lets it end with the connection.
  lemma BodyWithoutLengthDropped(lines: seq<string>, body: string)
    requires forall i :: 0 <= i < |lines| ==> IsHeaderLine(lines[i]) && !MentionsLength(lines[i])
    ensures var h := HeadOf(Concat(lines) + CRLF + body, 0);
            Complete(h) && Message(h) == Concat(lines) + CRLF
  {
    hide MentionsLength, HeadOf, Message, Complete;
    LengthsAgree(lines, 0, 0);
    assert "" + body == body;
    PlainResponse(lines, "", body);
    assert Concat(lines) + CRLF + "" == Concat(lines) + CRLF;
  }
}
