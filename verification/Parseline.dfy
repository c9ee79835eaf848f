/**
  The command-line tokenizer of lab9/tsh.c: blanks separate arguments, single quotes keep them together,
  and an ampersand asks for a background job.
 */
module Parseline {
  import opened CString
  import opened Wrappers

  const MAXLINE: nat := 1024

  const MAXARGS: nat := 128

  // ---------- what a line means ----------

  function CountBlanks(s: string): (n: nat)
    ensures n <= |s|
    ensures forall i :: 0 <= i < n ==> s[i] == ' '
    ensures n < |s| ==> s[n] != ' '
  {
    if s == "" || s[0] != ' ' then 0 else 1 + CountBlanks(s[1..])
  }

  // strchr: where `c` is first, or the length
  function Find(s: string, c: char): (n: nat)
    ensures n <= |s|
    ensures forall i :: 0 <= i < n ==> s[i] != c
    ensures n < |s| ==> s[n] == c
  {
    if s == "" || s[0] == c then 0 else 1 + Find(s[1..], c)
  }

  // Where the first argument begins and ends, if it ends
  function FirstWord(s: string): (r: Option<(nat, nat)>)
    ensures r.Some? ==> r.value.0 <= r.value.1 < |s|
  {
    var k := CountBlanks(s);
    var quoted := k < |s| && s[k] == '\'';
    var start := if quoted then k + 1 else k;
    var len := Find(s[start..], if quoted then '\'' else ' ');
    if start + len < |s| then Some((start, start + len)) else None
  }

  function Args(s: string): seq<string> {
    match FirstWord(s)
    case None => []
    case Some((start, end)) => [s[start..end]] + Args(s[end + 1..])
  }

  // The line with its last character, the newline, replaced
  function Blanked(cmdline: string): string
    requires cmdline != ""
  {
    cmdline[..|cmdline| - 1] + " "
  }

  predicate StartsWithAnd(s: string) {
    s != "" && s[0] == '&'
  }

  // The arguments and whether the job is to run in the background; a blank line counts as background.
  function Command(cmdline: string): (seq<string>, int)
    requires cmdline != ""
  {
    var args := Args(Blanked(cmdline));
    if args == [] then ([], 1)
    else if StartsWithAnd(args[|args| - 1]) then (args[..|args| - 1], 1)
    else (args, 0)
  }

  // ---------- writing a line ----------

  // An argument with the blanks typed before it
  datatype Word = Word(text: string, quoted: bool, gap: nat)

  predicate Writable(w: Word) {
    if w.quoted then '\'' !in w.text else w.text != "" && ' ' !in w.text && w.text[0] != '\''
  }

  function Blanks(n: nat): (s: string)
    ensures |s| == n && forall i :: 0 <= i < n ==> s[i] == ' '
  {
    seq(n, _ => ' ')
  }

  function WordText(w: Word): string {
    if w.quoted then "'" + w.text + "'" else w.text
  }

  // The words with a blank after each
  function Written(words: seq<Word>): string {
    if words == [] then "" else Blanks(words[0].gap) + WordText(words[0]) + " " + Written(words[1..])
  }

  function Texts(words: seq<Word>): (r: seq<string>)
    ensures |r| == |words| && forall i :: 0 <= i < |words| ==> r[i] == words[i].text
  {
    seq(|words|, i requires 0 <= i < |words| => words[i].text)
  }

  // ... as it is typed, ended by a newline
  function Typed(words: seq<Word>): string
    requires words != []
  {
    Written(words)[..|Written(words)| - 1] + "\n"
  }

  lemma {:induction false} CountIs(n: nat, rest: string)
    requires rest == "" || rest[0] != ' '
    ensures CountBlanks(Blanks(n) + rest) == n
  {
    hide CountBlanks;
    var s := Blanks(n) + rest;
    var k := CountBlanks(s);
    assert forall i :: 0 <= i < n ==> s[i] == Blanks(n)[i] == ' ';
    assert n < |s| ==> s[n] == rest[0];
  }

  lemma FindIs(s: string, c: char, rest: string)
    requires c !in s && rest != "" && rest[0] == c
    ensures Find(s + rest, c) == |s|
  {
    hide Find;
    var t := s + rest;
    assert forall i :: 0 <= i < |s| ==> t[i] == s[i] && s[i] in s;
    assert t[|s|] == c;
  }

  // The first word of a written line is read first.
  lemma ReadWord(w: Word, rest: string)
    requires Writable(w)
    ensures var s := Blanks(w.gap) + WordText(w) + " " + rest;
            FirstWord(s).Some? &&
            var (start, end) := FirstWord(s).value;
            s[start..end] == w.text && (s[end + 1..] == rest || (s[end + 1..] == " " + rest))
  {
    hide FirstWord;
    if w.quoted {
      ReadQuoted(w, rest);
    } else {
      ReadPlain(w, rest);
    }
  }

  lemma ReadQuoted(w: Word, rest: string)
    requires Writable(w) && w.quoted
    ensures var s := Blanks(w.gap) + WordText(w) + " " + rest; var start := w.gap + 1; var end := start + |w.text|;
            end < |s| && FirstWord(s) == Some((start, end)) && s[start..end] == w.text && s[end + 1..] == " " + rest
  {
    hide CountBlanks, Find, FirstWord, Blanks;
    QuotedShape(Blanks(w.gap), w.text, rest);
    WordIs(w.gap, "'" + (w.text + ("' " + rest)), w.text, "' " + rest, Blanks(w.gap) + "'");
  }

  lemma ReadPlain(w: Word, rest: string)
    requires Writable(w) && !w.quoted
    ensures var s := Blanks(w.gap) + WordText(w) + " " + rest; var start := w.gap; var end := start + |w.text|;
            end < |s| && FirstWord(s) == Some((start, end)) && s[start..end] == w.text && s[end + 1..] == rest
  {
    hide CountBlanks, Find, FirstWord, Blanks;
    PlainShape(Blanks(w.gap), w.text, rest);
    WordIs(w.gap, w.text + (" " + rest), w.text, " " + rest, Blanks(w.gap));
  }

  // The first word of `u` behind `gap` blanks is `text`, in front of which is `front`.
  lemma WordIs(gap: nat, u: string, text: string, tail: string, front: string)
    requires u != "" && u[0] != ' ' && Blanks(gap) + u == front + text + tail && tail != ""
    requires var c := if u[0] == '\'' then '\'' else ' '; c !in text && tail[0] == c
    requires text + tail == if u[0] == '\'' then u[1..] else u
    requires |front| == if u[0] == '\'' then gap + 1 else gap
    ensures var s := Blanks(gap) + u; var end := |front| + |text|;
            end < |s| && FirstWord(s) == Some((|front|, end)) && s[|front|..end] == text && s[end + 1..] == tail[1..]
  {
    hide CountBlanks, Find, FirstWord, Blanks;
    Pieces(front, text, tail);
    FindIs(text, tail[0], tail);
    WordAfterBlanks(gap, u, text + tail);
  }

  lemma QuotedShape(gap: string, text: string, rest: string)
    ensures var s, tail := gap + ("'" + text + "'") + " " + rest, "' " + rest;
            var u := "'" + (text + tail);
            && s == (gap + "'") + text + tail == gap + u && u[0] == '\'' && u[1..] == text + tail
            && tail[0] == '\'' && tail[1..] == " " + rest
  {
  }

  lemma PlainShape(gap: string, text: string, rest: string)
    requires text != ""
    ensures var s, tail := gap + text + " " + rest, " " + rest;
            var u := text + tail;
            s == gap + text + tail == gap + u && u[0] == text[0] && tail[0] == ' ' && tail[1..] == rest
  {
  }

  lemma Pieces(a: string, b: string, c: string)
    ensures var s := a + b + c;
            s[|a|..|a| + |b|] == b && s[|a| + |b|..] == c && (c != "" ==> s[|a| + |b| + 1..] == c[1..])
  {
  }

  // The first word of `u`, whose text and what follows are `v`, behind `gap` blanks
  lemma WordAfterBlanks(gap: nat, u: string, v: string)
    requires u != "" && u[0] != ' ' && v == if u[0] == '\'' then u[1..] else u
    ensures var quoted := u[0] == '\''; var start := if quoted then gap + 1 else gap;
            var len := Find(v, if quoted then '\'' else ' ');
            FirstWord(Blanks(gap) + u) == if len < |v| then Some((start, start + len)) else None
  {
    hide CountBlanks, Find;
    var s := Blanks(gap) + u;
    CountIs(gap, u);
    assert s[gap..] == u && s[gap + 1..] == u[1..];
  }

  // A blank in front changes nothing.
  lemma BlankFirst(s: string)
    ensures Args(" " + s) == Args(s)
  {
    hide FirstWord;
    WordMoves(s);
    if FirstWord(s).Some? {
      var (start, end) := FirstWord(s).value;
      assert (" " + s)[start + 1..end + 1] == s[start..end];
      assert (" " + s)[end + 2..] == s[end + 1..];
    }
  }

  lemma WordMoves(s: string)
    ensures FirstWord(" " + s) == match FirstWord(s) case None => None case Some((start, end)) => Some((start + 1, end + 1))
  {
    hide CountBlanks, Find;
    BlankCounts(s);
    var t, k := " " + s, CountBlanks(s);
    assert t[k + 1..] == s[k..];
    assert k < |s| ==> t[k + 1] == s[k] && t[k + 2..] == s[k + 1..];
  }

  lemma BlankCounts(s: string)
    ensures CountBlanks(" " + s) == CountBlanks(s) + 1
  {
    assert (" " + s)[1..] == s;
  }

  lemma {:induction false} ReadWords(words: seq<Word>)
    requires forall i :: 0 <= i < |words| ==> Writable(words[i])
    ensures Args(Written(words)) == Texts(words)
  {
    hide FirstWord, Writable;
    if words == [] {
      NoWord();
    } else {
      var rest := Written(words[1..]);
      ReadWord(words[0], rest);
      BlankFirst(rest);
      ReadWords(words[1..]);
      assert Texts(words) == [words[0].text] + Texts(words[1..]);
    }
  }

  lemma NoWord()
    ensures FirstWord("") == None
  {
  }

  lemma {:induction false} WrittenEnd(words: seq<Word>)
    requires words != []
    ensures var s := Written(words); s != "" && s[|s| - 1] == ' '
  {
    if |words| > 1 {
      WrittenEnd(words[1..]);
    }
  }

  // The list of arguments comes back from the line it is written on.
  lemma ReadTyped(words: seq<Word>)
    requires words != [] && forall i :: 0 <= i < |words| ==> Writable(words[i])
    ensures var last := words[|words| - 1].text;
            Command(Typed(words)) == if last != "" && last[0] == '&'
                                     then (Texts(words)[..|words| - 1], 1) else (Texts(words), 0)
  {
    hide Args, Writable, Blanked, Typed, Written;
    BlankedTyped(words);
    ReadWords(words);
  }

  lemma BlankedTyped(words: seq<Word>)
    requires words != []
    ensures Typed(words) != "" && Blanked(Typed(words)) == Written(words)
  {
    hide Written;
    WrittenEnd(words);
  }

  // With an ampersand behind it, the same list comes back as a background job.
  lemma ReadTypedBackground(words: seq<Word>, gap: nat)
    requires forall i :: 0 <= i < |words| ==> Writable(words[i])
    ensures Command(Typed(words + [Word("&", false, gap)])) == (Texts(words), 1)
  {
    var all := words + [Word("&", false, gap)];
    ReadTyped(all);
    assert Texts(all)[..|words|] == Texts(words);
  }

  // A line of blanks, or of one quotation that is never closed, has no arguments and counts as background.
  lemma NothingTyped(gap: nat, rest: string)
    requires rest == "" || (rest[0] == '\'' && '\'' !in rest[1..])
    ensures Command(Blanks(gap) + rest + "\n") == ([], 1)
  {
    hide CountBlanks, Find;
    var line := Blanks(gap) + rest + "\n";
    assert line[..|line| - 1] == Blanks(gap) + rest;
    if rest == "" {
      var s := Blanks(gap) + rest + " ";
      assert forall i :: 0 <= i < |s| ==> s[i] == ' ';
      assert CountBlanks(s) == |s|;
    } else {
      var u := rest + " ";
      assert Blanks(gap) + rest + " " == Blanks(gap) + u;
      assert u[1..] == rest[1..] + " ";
      WordAfterBlanks(gap, u, u[1..]);
    }
  }

  // ---------- parseline ----------

  // The string at offset `p` of the buffer
  ghost predicate HoldsAt(buf: seq<char>, p: nat, s: string) {
    p + |s| < |buf| && buf[p..p + |s|] == s && buf[p + |s|] == '\0' && '\0' !in s
  }

  lemma HeldString(buf: seq<char>, p: nat, s: string)
    requires HoldsAt(buf, p, s)
    ensures p < |buf| && CStr(buf[p..]) == s
  {
    var t := buf[p..];
    assert t[..|s|] == s;
    forall i | 0 <= i < |s| ensures t[i] != '\0' {
      assert t[i] == s[i];
    }
    LenIs(t, |s|);
  }

  method SkipBlanks(buf: array<char>, pos: nat, n: nat) returns (p: nat)
    requires pos <= n < buf.Length
    ensures p == pos + CountBlanks(buf[pos..n])
  {
    ghost var s := buf[pos..n];
    p := pos;
    while p < n && buf[p] == ' '
      invariant pos <= p <= n && CountBlanks(s) == p - pos + CountBlanks(buf[p..n])
    {
      assert buf[p..n][1..] == buf[p + 1..n];
      p := p + 1;
    }
  }

  method StrChr(buf: array<char>, pos: nat, n: nat, c: char) returns (p: nat)
    requires pos <= n < buf.Length
    ensures p == pos + Find(buf[pos..n], c)
  {
    ghost var s := buf[pos..n];
    p := pos;
    while p < n && buf[p] != c
      invariant pos <= p <= n && Find(s, c) == p - pos + Find(buf[p..n], c)
    {
      assert buf[p..n][1..] == buf[p + 1..n];
      p := p + 1;
    }
  }

  // Skip blanks and find the delimiter of the next argument, which begins at `start`; `n` if there is none.
  method NextDelim(buf: array<char>, pos: nat, n: nat) returns (start: nat, delim: nat)
    requires pos <= n < buf.Length
    ensures pos <= start <= delim <= n
    ensures Delimits(FirstWord(buf[pos..n]), pos, n, start, delim)
  {
    hide CountBlanks, Find, FirstWord;
    ghost var s := buf[pos..n];
    start := SkipBlanks(buf, pos, n);
    ghost var k := start - pos;
    var quoted := start < n && buf[start] == '\'';
    assert quoted == (k < |s| && s[k] == '\'');
    if quoted {
      start := start + 1;
    }
    delim := StrChr(buf, start, n, if quoted then '\'' else ' ');
    assert s[start - pos..] == buf[start..n];
    FirstWordIs(s, k, quoted, start - pos, delim - start);
  }

  lemma FirstWordIs(s: string, k: nat, quoted: bool, start: nat, len: nat)
    requires k == CountBlanks(s) && quoted == (k < |s| && s[k] == '\'') && start == if quoted then k + 1 else k
    requires len == Find(s[start..], if quoted then '\'' else ' ')
    ensures FirstWord(s) == if start + len < |s| then Some((start, start + len)) else None
  {
    hide CountBlanks, Find;
  }

  predicate Delimits(r: Option<(nat, nat)>, pos: nat, n: nat, start: nat, delim: nat) {
    match r
    case None => delim == n
    case Some((a, b)) => start == pos + a && delim == pos + b
  }

  // The arguments found so far lie in the part of the buffer before `pos`.
  ghost predicate AllHeld(buf: seq<char>, argv: seq<nat>, args: seq<string>, pos: nat) {
    |argv| == |args| && forall i :: 0 <= i < |args| ==> argv[i] + |args[i]| < pos && HoldsAt(buf, argv[i], args[i])
  }

  lemma HeldMore(buf: seq<char>, argv: seq<nat>, args: seq<string>, pos: nat, start: nat, delim: nat, word: string)
    requires AllHeld(buf, argv, args, pos) && pos <= start <= delim < |buf| && buf[start..delim] == word && '\0' !in word
    ensures AllHeld(buf[delim := '\0'], argv + [start], args + [word], delim + 1)
  {
    var buf' := buf[delim := '\0'];
    assert buf'[start..delim] == word;
    forall i | 0 <= i < |args| ensures HoldsAt(buf', argv[i], args[i]) {
      assert HoldsAt(buf, argv[i], args[i]);
      assert buf'[argv[i]..argv[i] + |args[i]|] == buf[argv[i]..argv[i] + |args[i]|];
    }
  }

  lemma NoNulBlanked(cmdline: string)
    requires cmdline != "" && '\0' !in cmdline
    ensures '\0' !in Blanked(cmdline)
  {
  }

  // strcpy, and the newline becomes a blank
  method CopyLine(cmdline: string, buf: array<char>)
    requires 1 <= |cmdline| < buf.Length
    modifies buf
    ensures buf[..|cmdline|] == Blanked(cmdline) && buf[|cmdline|] == '\0'
  {
    var n := |cmdline|;
    forall i | 0 <= i < n {
      buf[i] := cmdline[i];
    }
    buf[n] := '\0';
    buf[n - 1] := ' ';
  }

  // parseline; `buf` is the static array, `argv` holds offsets into it, and `bg` is the result.
  method ParseLine(cmdline: string, buf: array<char>) returns (argv: seq<nat>, bg: int)
    requires 1 <= |cmdline| < MAXLINE == buf.Length && '\0' !in cmdline
    requires |Args(Blanked(cmdline))| < MAXARGS
    modifies buf
    ensures var (args, b) := Command(cmdline);
            && bg == b && |argv| == |args|
            && forall i :: 0 <= i < |args| ==> argv[i] < buf.Length && CStr(buf[argv[i]..]) == args[i]
  {
    hide CStr, Args, FirstWord, AllHeld, HoldsAt, Blanked;
    var n := |cmdline|;
    ghost var line := Blanked(cmdline);
    CopyLine(cmdline, buf);
    NoNulBlanked(cmdline);
    ghost var args;
    argv, args := CutArgs(line, buf, n);
    AreHeld(buf[..], argv, args, n);
    assert forall i :: 0 <= i < |args| ==> buf[..][argv[i]..] == buf[argv[i]..];
    if |argv| == 0 {
      return argv, 1;
    }
    var last := argv[|argv| - 1];
    bg := if buf[last] == '&' then 1 else 0;
    if bg != 0 {
      argv := argv[..|argv| - 1];
    }
  }

  // The loop of parseline: each argument is ended by a NUL where its delimiter was.
  method CutArgs(ghost line: string, buf: array<char>, n: nat) returns (argv: seq<nat>, ghost args: seq<string>)
    requires n < buf.Length && buf[..n] == line && '\0' !in line
    modifies buf
    ensures args == Args(line) && AllHeld(buf[..], argv, args, n)
  {
    hide Args, FirstWord, AllHeld, HoldsAt;
    argv, args := [], [];
    var pos := 0;
    NoneHeld(buf[..], n);
    assert buf[0..n] == line[0..] == line;
    var start, delim := NextDelim(buf, 0, n);
    while delim < n
      invariant pos <= start <= delim <= n && buf[pos..n] == line[pos..]
      invariant Delimits(FirstWord(line[pos..]), pos, n, start, delim)
      invariant Args(line) == args + Args(line[pos..])
      invariant AllHeld(buf[..], argv, args, pos)
      decreases n - pos
    {
      ghost var before, word := buf[..], line[start..delim];
      NextArg(line, pos, n, start, delim);
      PartOf(before, pos, n, start, delim);
      PartOf(line, 0, n, pos, n);
      PartOf(line, pos, n, start, delim);
      HeldMore(before, argv, args, pos, start, delim, word);
      Reassociate(args, word, Args(line[delim + 1..]));
      argv := argv + [start];
      args := args + [word];
      buf[delim] := '\0';
      assert buf[..] == before[delim := '\0'];
      AfterCut(before, pos, delim, n, '\0');
      AfterCut(line, pos, delim, n, line[delim]);
      pos := delim + 1;
      start, delim := NextDelim(buf, pos, n);
    }
    NoArg(line, pos, n, start, delim);
    HeldBefore(buf[..], argv, args, pos, n);
  }

  lemma PartOf(s: string, pos: nat, n: nat, start: nat, end: nat)
    requires pos <= start <= end <= n <= |s|
    ensures s[pos..n][start - pos..end - pos] == s[start..end]
  {
    var part, t := s[pos..n][start - pos..end - pos], s[start..end];
    forall i | 0 <= i < |part| ensures part[i] == t[i] {
      assert part[i] == s[pos..n][start - pos + i];
    }
  }

  lemma AfterCut(s: string, pos: nat, delim: nat, n: nat, c: char)
    requires pos <= delim < n <= |s|
    ensures s[delim := c][delim + 1..n] == s[pos..n][delim + 1 - pos..]
  {
  }

  lemma Reassociate(args: seq<string>, word: string, rest: seq<string>)
    ensures args + ([word] + rest) == (args + [word]) + rest
  {
  }

  lemma NoneHeld(buf: seq<char>, n: nat)
    ensures AllHeld(buf, [], [], 0)
  {
  }

  lemma HeldBefore(buf: seq<char>, argv: seq<nat>, args: seq<string>, pos: nat, n: nat)
    requires AllHeld(buf, argv, args, pos) && pos <= n
    ensures AllHeld(buf, argv, args, n)
  {
  }

  lemma AreHeld(buf: seq<char>, argv: seq<nat>, args: seq<string>, pos: nat)
    requires AllHeld(buf, argv, args, pos)
    ensures |argv| == |args|
    ensures forall i :: 0 <= i < |args| ==>
              argv[i] < |buf| && CStr(buf[argv[i]..]) == args[i] && (buf[argv[i]] == '&' <==> StartsWithAnd(args[i]))
  {
    hide CStr, HoldsAt;
    forall i | 0 <= i < |args|
      ensures argv[i] < |buf| && CStr(buf[argv[i]..]) == args[i] && (buf[argv[i]] == '&' <==> StartsWithAnd(args[i]))
    {
      HeldString(buf, argv[i], args[i]);
      FirstChar(buf, argv[i], args[i]);
    }
  }

  lemma NextArg(line: string, pos: nat, n: nat, start: nat, delim: nat)
    requires pos <= |line| == n && Delimits(FirstWord(line[pos..]), pos, n, start, delim) && delim < n
    ensures pos <= start <= delim && Args(line[pos..]) == [line[start..delim]] + Args(line[delim + 1..])
  {
    hide FirstWord;
    assert line[pos..][start - pos..delim - pos] == line[start..delim];
    assert line[pos..][delim + 1 - pos..] == line[delim + 1..];
  }

  lemma NoArg(line: string, pos: nat, n: nat, start: nat, delim: nat)
    requires pos <= |line| == n && Delimits(FirstWord(line[pos..]), pos, n, start, delim) && delim == n
    ensures Args(line[pos..]) == []
  {
    hide FirstWord;
  }

  lemma FirstChar(buf: seq<char>, p: nat, s: string)
    requires HoldsAt(buf, p, s)
    ensures p < |buf| && buf[p] == '&' <==> StartsWithAnd(s)
  {
    assert s != "" ==> buf[p..p + |s|][0] == buf[p];
  }
}
