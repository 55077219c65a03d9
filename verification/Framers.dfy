/**
  The two newline framers: ipc_process_received_data of the gateway (Linux_data/ipc/ipc_server.c, a fixed
  array with an index loop and memmove) and IpcServer::processReceivedData of the PC
  (Pc_data/ipc/IpcServer.cpp, a string searched and erased).
 */
module Framers {
  import opened TextSearch

  const RECV_BUF_SIZE := 4096
  const MAX_BUFFER_SIZE := 1024 * 1024

  datatype Side = Linux | Pc

  /** The most text the side holds without dropping any. */
  function Limit(side: Side): nat {
    if side.Linux? then RECV_BUF_SIZE - 1 else MAX_BUFFER_SIZE
  }

  // ---------- Splitting a text at newlines ----------

  function Pieces(s: string): seq<string>
    decreases |s|
  {
    var i := FirstOf('\n', s);
    if i == |s| then [] else [s[..i]] + Pieces(s[i + 1..])
  }

  function Rest(s: string): string
    decreases |s|
  {
    var i := FirstOf('\n', s);
    if i == |s| then s else Rest(s[i + 1..])
  }

  function Join(lines: seq<string>, rest: string): string {
    if lines == [] then rest else lines[0] + "\n" + Join(lines[1..], rest)
  }

  /** No more than n characters in a row without a newline. */
  ghost predicate ShortLines(s: string, n: nat) {
    forall i, j :: 0 <= i <= j <= |s| && '\n' !in s[i..j] ==> j - i <= n
  }

  lemma PiecesAt(s: string, i: nat)
    requires i < |s| && s[i] == '\n' && '\n' !in s[..i]
    ensures Pieces(s) == [s[..i]] + Pieces(s[i + 1..]) && Rest(s) == Rest(s[i + 1..])
  {
    FirstIs('\n', s, i);
  }

  lemma NoPieces(s: string)
    requires '\n' !in s
    ensures Pieces(s) == [] && Rest(s) == s
  {
    assert s[..|s|] == s;
    FirstIs('\n', s, |s|);
  }

  /** The pieces and the rest are newline-free and make up the text. */
  lemma {:induction false} JoinPieces(s: string)
    ensures Join(Pieces(s), Rest(s)) == s
    ensures '\n' !in Rest(s) && forall p :: p in Pieces(s) ==> '\n' !in p
    decreases |s|
  {
    var i := FirstOf('\n', s);
    if i == |s| {
      assert s[..i] == s;
    } else {
      JoinPieces(s[i + 1..]);
      assert s == s[..i] + "\n" + s[i + 1..];
      assert Pieces(s)[1..] == Pieces(s[i + 1..]);
    }
  }

  lemma PiecesFrom(p: string, more: string)
    requires '\n' !in p
    ensures Pieces(p + "\n" + more) == [p] + Pieces(more) && Rest(p + "\n" + more) == Rest(more)
  {
    var t := p + "\n" + more;
    assert t[..|p|] == p && t[|p| + 1..] == more;
    PiecesAt(t, |p|);
  }

  /** They are the only such split. */
  lemma {:induction false} PiecesOfJoin(lines: seq<string>, rest: string)
    requires '\n' !in rest && forall p :: p in lines ==> '\n' !in p
    ensures Pieces(Join(lines, rest)) == lines && Rest(Join(lines, rest)) == rest
  {
    if lines == [] {
      NoPieces(rest);
    } else {
      PiecesFrom(lines[0], Join(lines[1..], rest));
      PiecesOfJoin(lines[1..], rest);
      assert lines == [lines[0]] + lines[1..];
    }
  }

  lemma {:induction false} JoinAppend(a: seq<string>, b: seq<string>, rest: string)
    ensures Join(a + b, rest) == Join(a, Join(b, rest))
  {
    if a == [] {
      assert a + b == b;
    } else {
      assert (a + b)[1..] == a[1..] + b;
      JoinAppend(a[1..], b, rest);
    }
  }

  lemma {:induction false} JoinRest(a: seq<string>, rest: string, more: string)
    ensures Join(a, rest) + more == Join(a, rest + more)
  {
    if a != [] {
      JoinRest(a[1..], rest, more);
      var head, tail := a[0] + "\n", Join(a[1..], rest);
      assert (head + tail) + more == head + (tail + more);
    }
  }

  /** Text that arrives later only extends the rest. */
  lemma PiecesOfTwo(a: string, b: string)
    ensures Pieces(a + b) == Pieces(a) + Pieces(Rest(a) + b) && Rest(a + b) == Rest(Rest(a) + b)
  {
    var first, kept := Pieces(a), Rest(a);
    var then', rest := Pieces(kept + b), Rest(kept + b);
    JoinPieces(a);
    JoinPieces(kept + b);
    JoinRest(first, kept, b);
    JoinAppend(first, then', rest);
    PiecesOfJoin(first + then', rest);
  }

  /** The rest of a prefix is one newline-free stretch of the text. */
  lemma {:induction false} RestIsSuffix(s: string)
    ensures |Rest(s)| <= |s| && Rest(s) == s[|s| - |Rest(s)|..] && '\n' !in Rest(s)
    decreases |s|
  {
    var i := FirstOf('\n', s);
    if i < |s| {
      RestIsSuffix(s[i + 1..]);
    } else {
      assert s[..i] == s;
    }
  }

  // ---------- Messages ----------

  /** What a C function sees of a text that is followed by NUL. */
  function CString(s: string): string {
    s[..FirstOf('\0', s)]
  }

  function Chomp(s: string): string {
    if s != [] && s[|s| - 1] == '\r' then s[..|s| - 1] else s
  }

  /** The gateway skips empty pieces and hands on C strings; the PC drops one trailing CR, then skips
      what is empty. */
  function Dispatched(side: Side, p: string): seq<string> {
    match side
    case Linux => if p == "" then [] else [CString(p)]
    case Pc => if Chomp(p) == "" then [] else [Chomp(p)]
  }

  function Messages(side: Side, pieces: seq<string>): seq<string> {
    if pieces == [] then [] else Dispatched(side, pieces[0]) + Messages(side, pieces[1..])
  }

  function Dispatch(side: Side, s: string): (seq<string>, string) {
    (Messages(side, Pieces(s)), Rest(s))
  }

  /** One read of the side: the messages it hands on and the text it keeps. Too much text drops what
      was kept before on the gateway, and everything on the PC. */
  function Feed(side: Side, kept: string, chunk: string): (seq<string>, string) {
    if |kept| + |chunk| <= Limit(side) then Dispatch(side, kept + chunk)
    else if side.Linux? then Dispatch(side, chunk)
    else ([], "")
  }

  function FeedAll(side: Side, kept: string, chunks: seq<string>): (seq<string>, string)
    decreases |chunks|
  {
    if chunks == [] then ([], kept)
    else
      var (now, next) := Feed(side, kept, chunks[0]);
      var (later, end) := FeedAll(side, next, chunks[1..]);
      (now + later, end)
  }

  function Flatten(chunks: seq<string>): string {
    if chunks == [] then "" else chunks[0] + Flatten(chunks[1..])
  }

  /** No read trips the limit. */
  predicate Fits(side: Side, kept: string, chunks: seq<string>)
    decreases |chunks|
  {
    chunks != [] ==> |kept| + |chunks[0]| <= Limit(side) && Fits(side, Rest(kept + chunks[0]), chunks[1..])
  }

  lemma {:induction false} MessagesAppend(side: Side, a: seq<string>, b: seq<string>)
    ensures Messages(side, a + b) == Messages(side, a) + Messages(side, b)
  {
    if a == [] {
      assert a + b == b;
    } else {
      assert (a + b)[1..] == a[1..] + b;
      MessagesAppend(side, a[1..], b);
    }
  }

  /** However a stream is cut into reads, the messages are those of the whole stream. */
  lemma {:induction false} ChunksDoNotMatter(side: Side, kept: string, chunks: seq<string>)
    requires Fits(side, kept, chunks) && '\n' !in kept
    ensures FeedAll(side, kept, chunks) == Dispatch(side, kept + Flatten(chunks))
    decreases |chunks|
  {
    if chunks == [] {
      assert kept + Flatten(chunks) == kept;
      NoPieces(kept);
    } else {
      var t, later := kept + chunks[0], Flatten(chunks[1..]);
      RestIsSuffix(t);
      ChunksDoNotMatter(side, Rest(t), chunks[1..]);
      assert kept + Flatten(chunks) == t + later;
      PiecesOfTwo(t, later);
      MessagesAppend(side, Pieces(t), Pieces(Rest(t) + later));
    }
  }

  /** A stream whose lines leave room for one read never trips the limit, however it is cut. */
  lemma {:induction false} ShortLinesFit(side: Side, kept: string, chunks: seq<string>, n: nat)
    requires ShortLines(kept + Flatten(chunks), n) && '\n' !in kept
    requires forall c :: c in chunks ==> n + |c| <= Limit(side)
    ensures Fits(side, kept, chunks)
    decreases |chunks|
  {
    if chunks != [] {
      var s, t, later := kept + Flatten(chunks), kept + chunks[0], Flatten(chunks[1..]);
      assert s == t + later;
      RestIsSuffix(t);
      var d := |t| - |Rest(t)|;
      assert s[d..] == Rest(t) + later && s[0..|kept|] == kept;
      ShorterLines(s, d, n);
      ShortLinesFit(side, Rest(t), chunks[1..], n);
    }
  }

  lemma ShorterLines(s: string, d: nat, n: nat)
    requires ShortLines(s, n) && d <= |s|
    ensures ShortLines(s[d..], n)
  {
    forall i, j | 0 <= i <= j <= |s[d..]| && '\n' !in s[d..][i..j]
      ensures j - i <= n
    {
      assert s[d..][i..j] == s[d + i..d + j];
    }
  }

  /** One over-long read on the gateway: the line that was waiting is lost, and what is left of it is
      handed on as a message of its own. */
  lemma {:induction false} OverflowCutsLine(kept: string, p: string, more: string)
    requires '\n' !in kept && '\n' !in p
    requires |kept| + |p + "\n" + more| > Limit(Linux)
    ensures Pieces(kept + (p + "\n" + more)) == [kept + p] + Pieces(more)
    ensures Feed(Linux, kept, p + "\n" + more).0 == Dispatched(Linux, p) + Messages(Linux, Pieces(more))
  {
    assert kept + (p + "\n" + more) == kept + p + "\n" + more;
    PiecesFrom(kept + p, more);
    PiecesFrom(p, more);
    assert ([p] + Pieces(more))[1..] == Pieces(more);
  }

  /** Lines that reach the other side unchanged. */
  predicate Plain(side: Side, m: string) {
    m != "" && '\n' !in m && match side case Linux => '\0' !in m case Pc => m[|m| - 1] != '\r'
  }

  lemma {:induction false} PlainMessages(side: Side, ms: seq<string>)
    requires forall m :: m in ms ==> Plain(side, m)
    ensures Messages(side, ms) == ms
  {
    if ms != [] {
      assert ms[0] in ms;
      if side.Linux? {
        assert ms[0][..|ms[0]|] == ms[0];
        FirstIs('\0', ms[0], |ms[0]|);
      }
      PlainMessages(side, ms[1..]);
      assert ms == [ms[0]] + ms[1..];
    }
  }

  /** End to end: lines that are not too long arrive one for one, whatever the reads look like. */
  lemma LinesArrive(side: Side, ms: seq<string>, chunks: seq<string>, n: nat)
    requires forall m :: m in ms ==> Plain(side, m)
    requires Flatten(chunks) == Join(ms, "") && ShortLines(Join(ms, ""), n)
    requires forall c :: c in chunks ==> n + |c| <= Limit(side)
    ensures FeedAll(side, "", chunks) == (ms, "")
  {
    assert "" + Flatten(chunks) == Flatten(chunks);
    ShortLinesFit(side, "", chunks, n);
    ChunksDoNotMatter(side, "", chunks);
    PiecesOfJoin(ms, "");
    PlainMessages(side, ms);
  }

  function WithCr(ms: seq<string>): seq<string> {
    if ms == [] then [] else [ms[0] + "\r"] + WithCr(ms[1..])
  }

  lemma ChompCr(m: string)
    ensures Chomp(m + "\r") == m
  {
    assert (m + "\r")[..|m|] == m;
  }

  lemma MessagesCons(side: Side, p: string, ps: seq<string>)
    ensures Messages(side, [p] + ps) == Dispatched(side, p) + Messages(side, ps)
  {
    assert ([p] + ps)[1..] == ps;
  }

  lemma {:induction false} CrIsDropped(ms: seq<string>)
    requires forall m :: m in ms ==> m != "" && '\n' !in m
    ensures Messages(Pc, WithCr(ms)) == ms
    ensures forall p :: p in WithCr(ms) ==> '\n' !in p
  {
    if ms != [] {
      var first, rest := ms[0], ms[1..];
      assert first in ms && forall m :: m in rest ==> m in ms;
      CrIsDropped(rest);
      ChompCr(first);
      MessagesCons(Pc, first + "\r", WithCr(rest));
      assert ms == [first] + rest;
    }
  }

  /** On the PC side lines may also end with CR LF: the CR is not part of the message. */
  lemma CrLfLinesArrive(ms: seq<string>, chunks: seq<string>, n: nat)
    requires forall m :: m in ms ==> m != "" && '\n' !in m
    requires Flatten(chunks) == Join(WithCr(ms), "") && ShortLines(Join(WithCr(ms), ""), n)
    requires forall c :: c in chunks ==> n + |c| <= Limit(Pc)
    ensures FeedAll(Pc, "", chunks) == (ms, "")
  {
    assert "" + Flatten(chunks) == Flatten(chunks);
    ShortLinesFit(Pc, "", chunks, n);
    ChunksDoNotMatter(Pc, "", chunks);
    CrIsDropped(ms);
    PiecesOfJoin(WithCr(ms), "");
  }

  /** With these messages out, what is left of the text t is s. */
  ghost predicate Left(side: Side, t: string, out: seq<string>, s: string) {
    exists lines :: Splits(side, t, lines, out, s)
  }

  ghost predicate Splits(side: Side, t: string, lines: seq<string>, out: seq<string>, s: string) {
    t == Join(lines, s) && out == Messages(side, lines) && forall p :: p in lines ==> '\n' !in p
  }

  lemma LeftStart(side: Side, t: string)
    ensures Left(side, t, [], t)
  {
    assert Splits(side, t, [], [], t);
  }

  lemma LeftStep(side: Side, t: string, out: seq<string>, s: string, i: nat)
    requires Left(side, t, out, s) && i < |s| && s[i] == '\n' && '\n' !in s[..i]
    ensures Left(side, t, out + Dispatched(side, s[..i]), s[i + 1..])
  {
    var lines :| Splits(side, t, lines, out, s);
    assert s == s[..i] + "\n" + s[i + 1..];
    OneMore(side, lines, s[..i], s[i + 1..]);
    assert Splits(side, t, lines + [s[..i]], out + Dispatched(side, s[..i]), s[i + 1..]);
  }

  lemma OneMore(side: Side, lines: seq<string>, p: string, rest: string)
    ensures Join(lines + [p], rest) == Join(lines, p + "\n" + rest)
    ensures Messages(side, lines + [p]) == Messages(side, lines) + Dispatched(side, p)
  {
    JoinAppend(lines, [p], rest);
    assert [p][1..] == [];
    assert Join([p], rest) == p + "\n" + rest;
    MessagesAppend(side, lines, [p]);
    assert Messages(side, [p]) == Dispatched(side, p);
  }

  lemma LeftEnd(side: Side, t: string, out: seq<string>, s: string)
    requires Left(side, t, out, s) && '\n' !in s
    ensures (out, s) == Dispatch(side, t)
  {
    var lines :| Splits(side, t, lines, out, s);
    PiecesOfJoin(lines, s);
  }

  // ---------- In place: the gateway ----------

  class Receiver {
    const buf: array<char>
    var len: nat

    ghost predicate Valid()
      reads this, buf
    {
      buf.Length == RECV_BUF_SIZE && len <= buf.Length && '\n' !in buf[..len]
    }

    function Kept(): string
      requires len <= buf.Length
      reads this, buf
    {
      buf[..len]
    }

    constructor ()
      ensures Valid() && fresh(buf) && Kept() == ""
    {
      buf := new char[RECV_BUF_SIZE];
      len := 0;
      new;
      assert buf[..len] == "";
    }

    method ProcessReceivedData(chunk: string) returns (messages: seq<string>)
      requires Valid() && |chunk| <= RECV_BUF_SIZE
      modifies this, buf
      ensures Valid() && (messages, Kept()) == Feed(Linux, old(Kept()), chunk)
    {
      Append(chunk);
      ghost var t := Kept();
      RestIsSuffix(t);
      var start;
      messages, start := Scan();
      ghost var rest := buf[start..len];
      LeftEnd(Linux, t, messages, rest);
      if start > 0 {
        Discard(start);
      }
      assert Kept() == rest;
    }

    method Discard(start: nat)
      requires start <= len <= buf.Length
      modifies this, buf
      ensures len <= buf.Length && Kept() == old(buf[start..len])
    {
      forall k | 0 <= k < len - start {
        buf[k] := buf[start + k];
      }
      len := len - start;
    }

    method Append(chunk: string)
      requires Valid() && |chunk| <= RECV_BUF_SIZE
      modifies this, buf
      ensures len <= buf.Length
      ensures Kept() == if |old(Kept())| + |chunk| <= Limit(Linux) then old(Kept()) + chunk else chunk
    {
      if len + |chunk| >= RECV_BUF_SIZE {
        len := 0;
      }
      ghost var before := buf[..len];
      forall k | 0 <= k < |chunk| {
        buf[len + k] := chunk[k];
      }
      len := len + |chunk|;
      assert buf[..len] == before + chunk;
    }

    method Scan() returns (messages: seq<string>, start: nat)
      requires buf.Length == RECV_BUF_SIZE && len <= buf.Length
      modifies buf
      ensures start <= len && Left(Linux, old(Kept()), messages, buf[start..len])
      ensures '\n' !in buf[start..len]
    {
      ghost var t := Kept();
      messages, start := [], 0;
      ScanStart(t);
      for i := 0 to len
        invariant 0 <= start <= i <= len == |t|
        invariant forall k :: start <= k < len ==> buf[k] == t[k]
        invariant forall k :: start <= k < i ==> t[k] != '\n'
        invariant Left(Linux, t, messages, t[start..])
      {
        if buf[i] == '\n' {
          messages := TakePiece(t, messages, start, i);
          start := i + 1;
        }
      }
      assert buf[start..len] == t[start..];
    }

    /** Ends the piece at its newline with NUL and hands it on unless it is empty. */
    method TakePiece(ghost t: string, messages: seq<string>, start: nat, i: nat) returns (out: seq<string>)
      requires start <= i < |t| <= buf.Length && t[i] == '\n' && (forall k :: start <= k < i ==> t[k] != '\n')
      requires forall k :: start <= k < i ==> buf[k] == t[k]
      requires Left(Linux, t, messages, t[start..])
      modifies buf
      ensures Left(Linux, t, out, t[i + 1..])
      ensures forall k :: 0 <= k < buf.Length && k != i ==> buf[k] == old(buf[k])
    {
      ScanStep(t, messages, start, i);
      buf[i] := '\0';
      assert buf[start..i] == t[start..i];
      if i > start {
        var msg := ReadCString(start, i);
        out := messages + [msg];
      } else {
        out := messages;
        assert out + [] == out;
      }
    }

    /** The text from start to the next NUL. */
    method ReadCString(start: nat, end: nat) returns (s: string)
      requires start <= end < buf.Length && buf[end] == '\0'
      ensures s == CString(buf[start..end])
    {
      var i := start;
      while buf[i] != '\0'
        invariant start <= i <= end && '\0' !in buf[start..i]
        decreases end - i
      {
        assert buf[start..i + 1] == buf[start..i] + [buf[i]];
        i := i + 1;
      }
      s := buf[start..i];
      assert buf[start..end][..i - start] == s;
      FirstIs('\0', buf[start..end], i - start);
    }
  }

  lemma ScanStep(t: string, out: seq<string>, start: nat, i: nat)
    requires start <= i < |t| && t[i] == '\n' && (forall k :: start <= k < i ==> t[k] != '\n')
    requires Left(Linux, t, out, t[start..])
    ensures Left(Linux, t, out + Dispatched(Linux, t[start..i]), t[i + 1..])
  {
    var s := t[start..];
    assert s[..i - start] == t[start..i] && s[i - start + 1..] == t[i + 1..];
    LeftStep(Linux, t, out, s, i - start);
  }

  lemma ScanStart(t: string)
    ensures Left(Linux, t, [], t[0..])
  {
    LeftStart(Linux, t);
    assert t[0..] == t;
  }

  // ---------- In place: the PC ----------

  class IpcServer {
    var recvBuffer: string

    ghost predicate Valid()
      reads this
    {
      '\n' !in recvBuffer && |recvBuffer| <= MAX_BUFFER_SIZE
    }

    constructor ()
      ensures Valid() && recvBuffer == ""
    {
      recvBuffer := "";
    }

    method ProcessReceivedData(chunk: string) returns (messages: seq<string>)
      requires Valid()
      modifies this
      ensures Valid() && (messages, recvBuffer) == Feed(Pc, old(recvBuffer), chunk)
    {
      messages := [];
      if |chunk| == 0 {
        assert recvBuffer + chunk == recvBuffer;
        NoPieces(recvBuffer);
        assert Feed(Pc, recvBuffer, chunk) == ([], recvBuffer);
        return;
      }
      recvBuffer := recvBuffer + chunk;
      RestIsSuffix(recvBuffer);
      if |recvBuffer| > MAX_BUFFER_SIZE {
        recvBuffer := "";
        return;
      }
      messages := DrainLines();
    }

    method DrainLines() returns (messages: seq<string>)
      modifies this
      ensures (messages, recvBuffer) == Dispatch(Pc, old(recvBuffer))
    {
      ghost var t := recvBuffer;
      messages := [];
      LeftStart(Pc, t);
      var pos := FirstOf('\n', recvBuffer);
      while pos < |recvBuffer|
        invariant pos == FirstOf('\n', recvBuffer)
        invariant Left(Pc, t, messages, recvBuffer)
        decreases |recvBuffer|
      {
        var msg := recvBuffer[..pos];
        LeftStep(Pc, t, messages, recvBuffer, pos);
        recvBuffer := recvBuffer[pos + 1..];
        pos := FirstOf('\n', recvBuffer);
        ghost var out := Dispatched(Pc, msg);
        if msg != "" && msg[|msg| - 1] == '\r' {
          msg := msg[..|msg| - 1];
        }
        if msg == "" {
          assert messages + out == messages;
          continue;
        }
        messages := messages + [msg];
      }
      assert recvBuffer[..pos] == recvBuffer;
      LeftEnd(Pc, t, messages, recvBuffer);
    }
  }
}
