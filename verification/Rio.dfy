/**
  The robust I/O package of lab10/csapp.c.  A byte is a char here.  What the kernel does with a
  descriptor is given by a script: it may interrupt a call, fail it, or transfer fewer bytes than asked for.
 */
module Rio {

  const RIO_BUFSIZE: nat := 8192

  // What happens to the next call; `Moves(k)` transfers at most `k` bytes.
  datatype Outcome = Interrupted | Failed | Moves(k: nat)

  function Min(a: int, b: int): int {
    if a < b then a else b
  }

  lemma MinOf(a: int, b: int)
    ensures Min(a, b) <= a && Min(a, b) <= b && (Min(a, b) == a || Min(a, b) == b)
  {
  }

  predicate NoFailure(script: seq<Outcome>) {
    Failed !in script
  }

  // ---------- the kernel's side ----------

  method Deliver(buf: array<char>, off: nat, s: string)
    requires off + |s| <= buf.Length
    modifies buf
    ensures buf[off..off + |s|] == s
    ensures forall i :: 0 <= i < buf.Length && !(off <= i < off + |s|) ==> buf[i] == old(buf[i])
  {
    forall i | 0 <= i < |s| {
      buf[off + i] := s[i];
    }
  }

  // An open descriptor: the bytes still to be read from it and the bytes written to it.  When a script
  // is over, calls transfer all they can.
  class Descriptor {
    var unread: string
    var readScript: seq<Outcome>
    var written: string
    var writeScript: seq<Outcome>

    constructor (unread: string, readScript: seq<Outcome>, writeScript: seq<Outcome>)
      ensures this.unread == unread && this.readScript == readScript && this.written == "" && this.writeScript == writeScript
    {
      this.unread, this.readScript, this.written, this.writeScript := unread, readScript, "", writeScript;
    }

    // read(2): -1 with errno, 0 at the end of the file, or the number of bytes put into `buf` from `off` on
    method Read(buf: array<char>, off: nat, n: nat) returns (r: int, eintr: bool)
      requires off + n <= buf.Length
      modifies this`unread, this`readScript, buf
      ensures -1 <= r <= n && (n > 0 && r != -1 ==> (r == 0 <==> old(unread) == ""))
      ensures old(readScript) == [] || old(readScript)[0].Moves? ==> r >= 0
      ensures r < 0 ==> |readScript| < |old(readScript)|
      ensures r < 0 && !eintr ==> !NoFailure(old(readScript))
      ensures NoFailure(old(readScript)) ==> NoFailure(readScript)
      ensures |readScript| <= |old(readScript)|
      ensures r <= 0 ==> unread == old(unread) && buf[..] == old(buf[..])
      ensures r > 0 ==> old(unread) == buf[off..off + r] + unread
      ensures forall i :: 0 <= i < buf.Length && !(off <= i < off + r) ==> buf[i] == old(buf[i])
    {
      var limit := n;
      if readScript != [] {
        var o := readScript[0];
        readScript := readScript[1..];
        if o.Failed? {
          return -1, false;
        }
        if o.Interrupted? {
          return -1, true;
        }
        limit := if o.k == 0 then 1 else o.k;
      }
      var cnt: nat := Min(Min(limit, n), |unread|);
      Deliver(buf, off, unread[..cnt]);
      unread := unread[cnt..];
      return cnt, false;
    }

    // write(2)
    method Write(buf: array<char>, off: nat, n: nat) returns (r: int, eintr: bool)
      requires off + n <= buf.Length && n > 0
      modifies this`written, this`writeScript
      ensures -1 <= r <= n && r != 0
      ensures r < 0 ==> |writeScript| < |old(writeScript)|
      ensures r < 0 && !eintr ==> !NoFailure(old(writeScript))
      ensures NoFailure(old(writeScript)) ==> NoFailure(writeScript)
      ensures |writeScript| <= |old(writeScript)|
      ensures written == if r > 0 then old(written) + buf[off..off + r] else old(written)
    {
      var limit := n;
      if writeScript != [] {
        var o := writeScript[0];
        writeScript := writeScript[1..];
        if o.Failed? {
          return -1, false;
        }
        if o.Interrupted? {
          return -1, true;
        }
        limit := if o.k == 0 then 1 else o.k;
      }
      var cnt := Min(limit, n);
      written := written + buf[off..off + cnt];
      return cnt, false;
    }
  }

  // ---------- unbuffered ----------

  // rio_readn: what has left the stream lies in the user's buffer, and without an error it is all of the
  // first `n` bytes.
  method RioReadn(fd: Descriptor, usrbuf: array<char>, n: nat) returns (r: int)
    requires n <= usrbuf.Length
    modifies fd`unread, fd`readScript, usrbuf
    ensures var got := |old(fd.unread)| - |fd.unread|;
            0 <= got <= n && old(fd.unread) == usrbuf[..got] + fd.unread
    ensures r == -1 || r == Min(n, |old(fd.unread)|) == |old(fd.unread)| - |fd.unread|
    ensures NoFailure(old(fd.readScript)) ==> r != -1 && NoFailure(fd.readScript)
    ensures forall i :: n <= i < usrbuf.Length ==> usrbuf[i] == old(usrbuf[i])
  {
    hide NoFailure;
    ghost var s := fd.unread;
    var nleft := n;
    var bufp := 0;
    while nleft > 0
      invariant 0 <= nleft && bufp + nleft == n && s == usrbuf[..bufp] + fd.unread
      invariant NoFailure(old(fd.readScript)) ==> NoFailure(fd.readScript)
      invariant forall i :: n <= i < usrbuf.Length ==> usrbuf[i] == old(usrbuf[i])
      decreases nleft + |fd.readScript|
    {
      ghost var front := usrbuf[..bufp];
      ghost var unread := fd.unread;
      var nread, eintr := fd.Read(usrbuf, bufp, nleft);
      assert usrbuf[..bufp] == front;
      if nread < 0 {
        if eintr {
          nread := 0;
        } else {
          return -1;
        }
      } else if nread == 0 {
        break;
      }
      assert front + unread == usrbuf[..bufp] + usrbuf[bufp..bufp + nread] + fd.unread;
      assert usrbuf[..bufp + nread] == usrbuf[..bufp] + usrbuf[bufp..bufp + nread];
      nleft := nleft - nread;
      bufp := bufp + nread;
    }
    return n - nleft;
  }

  // rio_writen: -1 only after an error; then some of the bytes are written, otherwise all of them.
  method RioWriten(fd: Descriptor, usrbuf: array<char>, n: nat) returns (r: int)
    requires n <= usrbuf.Length
    modifies fd`written, fd`writeScript
    ensures (r == n && fd.written == old(fd.written) + usrbuf[..n]) ||
            (r == -1 && exists k :: 0 <= k < n && fd.written == old(fd.written) + usrbuf[..k])
    ensures NoFailure(old(fd.writeScript)) ==> r == n && NoFailure(fd.writeScript)
  {
    var nleft := n;
    var bufp := 0;
    while nleft > 0
      invariant 0 <= nleft && bufp + nleft == n && fd.written == old(fd.written) + usrbuf[..bufp]
      invariant NoFailure(old(fd.writeScript)) ==> NoFailure(fd.writeScript)
      decreases nleft + |fd.writeScript|
    {
      var nwritten, eintr := fd.Write(usrbuf, bufp, nleft);
      if nwritten <= 0 {
        if eintr {
          nwritten := 0;
        } else {
          return -1;
        }
      }
      assert usrbuf[..bufp + nwritten] == usrbuf[..bufp] + usrbuf[bufp..bufp + nwritten];
      nleft := nleft - nwritten;
      bufp := bufp + nwritten;
    }
    return n;
  }

  lemma Rejoin(a: string, b: string, c: string)
    ensures a + (b + c) == (a + b) + c
  {
  }

  // ---------- lines ----------

  // The first line of `s`: up to and including a newline, but at most `max` bytes
  function LineOf(s: string, max: nat): (line: string)
    ensures |line| <= max && line <= s
  {
    if s == "" || max == 0 then ""
    else if s[0] == '\n' then "\n"
    else [s[0]] + LineOf(s[1..], max - 1)
  }

  // It stops at the first newline, or it is as long as it may be or as there is.
  lemma {:induction false} LineStops(s: string, max: nat)
    ensures var line := LineOf(s, max);
            && (forall i :: 0 <= i < |line| - 1 ==> line[i] != '\n')
            && (|line| < max && |line| < |s| ==> line != "" && line[|line| - 1] == '\n')
  {
    if s != "" && max > 0 && s[0] != '\n' {
      LineStops(s[1..], max - 1);
    }
  }

  // One more byte
  lemma {:induction false} LineGrows(s: string, k: nat, max: nat)
    requires k < max && k < |s| && forall i :: 0 <= i < k ==> s[i] != '\n'
    ensures s[k] == '\n' ==> LineOf(s, max) == s[..k + 1]
    decreases k
  {
    if k > 0 {
      LineGrows(s[1..], k - 1, max - 1);
      assert s[1..][..k] == s[1..k + 1];
    }
  }

  // No newline before the limit
  lemma {:induction false} LineFull(s: string, k: nat, max: nat)
    requires k <= |s| && k <= max && (k == max || k == |s|) && forall i :: 0 <= i < k ==> s[i] != '\n'
    ensures LineOf(s, max) == s[..k]
    decreases k
  {
    if k > 0 {
      LineFull(s[1..], k - 1, max - 1);
      assert s[1..][..k - 1] == s[1..k];
    }
  }

  predicate NoNewline(line: string) {
    forall i :: 0 <= i < |line| ==> line[i] != '\n'
  }

  lemma NothingYet(line: string)
    requires line == ""
    ensures NoNewline(line)
  {
  }

  // The loop of rio_readlineb has `line` and meets `c`.
  lemma LineMore(s: string, line: string, c: char, rest: string, max: nat)
    requires s == line + ([c] + rest) && NoNewline(line) && |line| < max
    ensures s == (line + [c]) + rest
    ensures if c == '\n' then LineOf(s, max) == line + [c] else NoNewline(line + [c])
  {
    Rejoin(line, [c], rest);
    LineGrows(s, |line|, max);
  }

  lemma LineDone(s: string, line: string, rest: string, max: nat)
    requires s == line + rest && NoNewline(line) && |line| <= max && (|line| == max || rest == "")
    ensures LineOf(s, max) == line
  {
    LineFull(s, |line|, max);
  }

  // ---------- buffered ----------

  // memcpy
  method CopyBytes(dst: array<char>, off: nat, src: array<char>, from: nat, k: nat)
    requires dst != src && off + k <= dst.Length && from + k <= src.Length
    modifies dst
    ensures dst[off..off + k] == src[from..from + k]
    ensures forall i :: 0 <= i < dst.Length && !(off <= i < off + k) ==> dst[i] == old(dst[i])
  {
    forall i | 0 <= i < k {
      dst[off + i] := src[from + i];
    }
  }

  // rio_t
  class RioBuffer {
    const fd: Descriptor
    var cnt: int
    var bufptr: nat
    const buf: array<char>

    // rio_readinitb
    constructor (fd: Descriptor)
      ensures Valid() && this.fd == fd && fresh(buf) && Pending() == fd.unread
    {
      this.fd := fd;
      cnt, bufptr := 0, 0;
      buf := new char[RIO_BUFSIZE];
    }

    ghost predicate Valid()
      reads this
    {
      buf.Length == RIO_BUFSIZE && -1 <= cnt && bufptr + (if cnt > 0 then cnt else 0) <= RIO_BUFSIZE
    }

    // The bytes still to be delivered: those in the buffer and then those not yet read
    ghost function Pending(): string
      requires Valid()
      reads this, fd`unread, buf
    {
      (if cnt > 0 then buf[bufptr..bufptr + cnt] else "") + fd.unread
    }

    // The refilling loop of rio_read: it leaves bytes in the buffer (0), or met the end (1) or an error (-1).
    method Refill() returns (r: int)
      requires Valid()
      modifies this`cnt, this`bufptr, fd`unread, fd`readScript, buf
      ensures Valid() && Pending() == old(Pending())
      ensures r == -1 || r == 0 || r == 1
      ensures r == 0 ==> cnt > 0
      ensures r == 1 ==> cnt == 0
      ensures old(cnt) > 0 ==> r == 0 && cnt == old(cnt) && fd.unread == old(fd.unread)
      ensures r == 1 ==> old(Pending()) == ""
      ensures NoFailure(old(fd.readScript)) ==> r != -1 && NoFailure(fd.readScript)
    {
      while cnt <= 0
        invariant Valid() && Pending() == old(Pending())
        invariant NoFailure(old(fd.readScript)) ==> NoFailure(fd.readScript)
        invariant old(cnt) > 0 ==> cnt == old(cnt) && fd.unread == old(fd.unread)
        decreases if cnt <= 0 then 1 + |fd.readScript| else 0
      {
        var eintr;
        cnt, eintr := fd.Read(buf, 0, buf.Length);
        if cnt < 0 {
          if !eintr {
            return -1;
          }
        } else if cnt == 0 {
          return 1;
        } else {
          bufptr := 0;
        }
      }
      return 0;
    }

    // rio_read, into `usrbuf` from `off` on: as much of what is in the buffer, refilled if empty, as is wanted.
    method Read(usrbuf: array<char>, off: nat, n: nat) returns (r: int)
      requires Valid() && off + n <= usrbuf.Length && usrbuf != buf
      modifies this`cnt, this`bufptr, fd`unread, fd`readScript, buf, usrbuf
      ensures Valid() && -1 <= r <= n
      ensures NoFailure(old(fd.readScript)) ==> r != -1 && NoFailure(fd.readScript)
      ensures r != -1 ==> cnt >= 0 && r == Min(n, r + cnt)
      ensures r != -1 && old(cnt) > 0 ==> r + cnt == old(cnt) && fd.unread == old(fd.unread)
      ensures n > 0 ==> (r == 0 <==> r != -1 && old(Pending()) == "")
      ensures r <= 0 ==> Pending() == old(Pending())
      ensures r > 0 ==> old(Pending()) == usrbuf[off..off + r] + Pending()
      ensures forall i :: 0 <= i < usrbuf.Length && !(off <= i < off + r) ==> usrbuf[i] == old(usrbuf[i])
    {
      hide NoFailure, Pending, Valid, Min;
      var full := Refill();
      MinOf(n, if cnt > 0 then cnt else 0);
      if full == -1 {
        return -1;
      }
      if full == 1 {
        return 0;
      }
      var k := n;
      if cnt < n {
        k := cnt;
      }
      Deliver(usrbuf, off, k);
      return k;
    }

    // The copy at the end of rio_read
    method Deliver(usrbuf: array<char>, off: nat, k: nat)
      requires Valid() && k <= cnt && off + k <= usrbuf.Length && usrbuf != buf
      modifies this`cnt, this`bufptr, usrbuf
      ensures Valid() && cnt == old(cnt) - k
      ensures old(Pending()) == usrbuf[off..off + k] + Pending()
      ensures forall i :: 0 <= i < usrbuf.Length && !(off <= i < off + k) ==> usrbuf[i] == old(usrbuf[i])
    {
      hide Pending;
      CopyBytes(usrbuf, off, buf, bufptr, k);
      SplitPending(k);
      bufptr := bufptr + k;
      cnt := cnt - k;
      PendingNow();
    }

    lemma PendingNow()
      requires Valid() && cnt >= 0
      ensures Pending() == buf[bufptr..bufptr + cnt] + fd.unread
    {
    }

    lemma SplitPending(k: nat)
      requires Valid() && k <= cnt
      ensures Pending() == buf[bufptr..bufptr + k] + (buf[bufptr + k..bufptr + cnt] + fd.unread)
    {
      assert buf[bufptr..bufptr + cnt] == buf[bufptr..bufptr + k] + buf[bufptr + k..bufptr + cnt];
    }

    // rio_readnb: delivered bytes, buffered bytes and unread bytes make up the stream at all times, and
    // without an error exactly the first `n` are delivered, however the reads were split.
    method Readnb(usrbuf: array<char>, n: nat) returns (r: int)
      requires Valid() && n <= usrbuf.Length && usrbuf != buf
      modifies this`cnt, this`bufptr, fd`unread, fd`readScript, buf, usrbuf
      ensures Valid()
      ensures var got := |old(Pending())| - |Pending()|;
              0 <= got <= n && old(Pending()) == usrbuf[..got] + Pending()
      ensures r == -1 || r == Min(n, |old(Pending())|) == |old(Pending())| - |Pending()|
      ensures NoFailure(old(fd.readScript)) ==> r != -1 && NoFailure(fd.readScript)
      ensures forall i :: n <= i < usrbuf.Length ==> usrbuf[i] == old(usrbuf[i])
    {
      hide NoFailure, Pending, Valid;
      ghost var s := Pending();
      var nleft := n;
      var bufp := 0;
      while nleft > 0
        invariant Valid() && 0 <= nleft && bufp + nleft == n && s == usrbuf[..bufp] + Pending()
        invariant NoFailure(old(fd.readScript)) ==> NoFailure(fd.readScript)
        invariant forall i :: n <= i < usrbuf.Length ==> usrbuf[i] == old(usrbuf[i])
        decreases nleft
      {
        ghost var front, pending := usrbuf[..bufp], Pending();
        var nread := Read(usrbuf, bufp, nleft);
        assert usrbuf[..bufp] == front;
        if nread < 0 {
          return -1;
        } else if nread == 0 {
          break;
        }
        assert usrbuf[..bufp + nread] == front + usrbuf[bufp..bufp + nread];
        Rejoin(front, usrbuf[bufp..bufp + nread], Pending());
        nleft := nleft - nread;
        bufp := bufp + nread;
      }
      return n - nleft;
    }

    // rio_read(rp, &c, 1), with the byte stored at `at`
    method ReadChar(usrbuf: array<char>, at: nat) returns (rc: int)
      requires Valid() && at < usrbuf.Length && usrbuf != buf
      modifies this`cnt, this`bufptr, fd`unread, fd`readScript, buf, usrbuf
      ensures Valid() && (rc == -1 || rc == 0 || rc == 1)
      ensures NoFailure(old(fd.readScript)) ==> rc != -1 && NoFailure(fd.readScript)
      ensures rc == 0 ==> old(Pending()) == ""
      ensures rc <= 0 ==> Pending() == old(Pending())
      ensures rc == 1 ==> old(Pending()) == [usrbuf[at]] + Pending()
      ensures forall i :: 0 <= i < usrbuf.Length && i != at ==> usrbuf[i] == old(usrbuf[i])
    {
      hide NoFailure, Valid, Pending;
      var c := new char[1];
      rc := Read(c, 0, 1);
      if rc == 1 {
        assert c[0..1] == [c[0]];
        usrbuf[at] := c[0];
      }
    }

    // rio_readlineb: without an error, exactly the first line is delivered, and a NUL behind it unless the
    // end of the file came first.
    method Readlineb(usrbuf: array<char>, maxlen: nat) returns (r: int)
      requires Valid() && usrbuf.Length >= 1 && maxlen <= usrbuf.Length && usrbuf != buf
      modifies this`cnt, this`bufptr, fd`unread, fd`readScript, buf, usrbuf
      ensures Valid()
      ensures var got := |old(Pending())| - |Pending()|;
              0 <= got < usrbuf.Length && old(Pending()) == usrbuf[..got] + Pending()
      ensures r == -1 || r == |LineOf(old(Pending()), if maxlen == 0 then 0 else maxlen - 1)| == |old(Pending())| - |Pending()|
      ensures r > 0 || (r == 0 && maxlen <= 1) ==> r < usrbuf.Length && usrbuf[r] == '\0'
      ensures NoFailure(old(fd.readScript)) ==> r != -1 && NoFailure(fd.readScript)
    {
      hide LineOf, NoFailure, Pending, Valid, NoNewline;
      ghost var s := Pending();
      ghost var max := if maxlen == 0 then 0 else maxlen - 1;
      ghost var ended := false;
      var bufp := 0;
      var n := 1;
      NothingYet(usrbuf[..0]);
      while n < maxlen
        invariant 1 <= n && n - 1 == bufp <= max && Valid()
        invariant !ended && s == usrbuf[..bufp] + Pending() && NoNewline(usrbuf[..bufp])
        invariant NoFailure(old(fd.readScript)) ==> NoFailure(fd.readScript)
        decreases maxlen - n
      {
        ghost var line := usrbuf[..bufp];
        var rc := ReadChar(usrbuf, bufp);
        assert usrbuf[..bufp] == line;
        if rc == 1 {
          var c := usrbuf[bufp];
          LineMore(s, line, c, Pending(), max);
          bufp := bufp + 1;
          assert usrbuf[..bufp] == line + [c];
          if c == '\n' {
            ended := true;
            n := n + 1;
            break;
          }
        } else if rc == 0 {
          LineDone(s, line, Pending(), max);
          ended := true;
          if n == 1 {
            return 0;
          }
          break;
        } else {
          return -1;
        }
        n := n + 1;
      }
      ghost var line := usrbuf[..bufp];
      if !ended {
        LineDone(s, line, Pending(), max);
      }
      usrbuf[bufp] := '\0';
      assert usrbuf[..bufp] == line;
      return n - 1;
    }
  }
}
