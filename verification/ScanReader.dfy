/**
 Splitting console output into events (`ScanReader`, utils.go).

 Bytes are characters.  The reader hands out chunks of at most 256 bytes.  A chunk is a prefix when the
 256-byte buffer is full and the line goes on, as far as the reader can tell; the last fragment of a
 stream, shorter than the buffer, is no prefix although no line end follows.  After the chunks comes the
 end of the stream or an error.
 */
module ScanReader {
  import opened Prelude

  const CHUNK: nat := 256
  const MAX_BUFFER: nat := 65536

  datatype Chunk = Chunk(bytes: string, isPrefix: bool)

  /**
   What `bufio.Reader.ReadLine` promises of one chunk: a prefix fills the buffer, but for a carriage return
   at its end, which is kept back for the next chunk (and dropped there if it ends the line).
   */
  ghost predicate FromReader(chunks: seq<Chunk>, i: nat)
    requires i < |chunks|
  {
    && |chunks[i].bytes| <= CHUNK
    && (chunks[i].isPrefix && |chunks[i].bytes| < CHUNK ==>
          && |chunks[i].bytes| == CHUNK - 1 && i + 1 < |chunks|
          && (chunks[i + 1] == Chunk("", false) || "\r" <= chunks[i + 1].bytes))
  }

  ghost predicate Readable(chunks: seq<Chunk>) {
    forall i :: 0 <= i < |chunks| ==> FromReader(chunks, i)
  }

  lemma ReadableRest(chunks: seq<Chunk>)
    requires Readable(chunks) && chunks != []
    ensures Readable(chunks[1..])
  {
    forall i | 0 <= i < |chunks[1..]| ensures FromReader(chunks[1..], i) {
      assert FromReader(chunks, i + 1);
    }
  }

  // ---- The substitution ----

  /** `bytes.Replace` of " \r" by "\r\n", from left to right. */
  function Crlf(s: string): (r: string)
    ensures |r| == |s|
  {
    if |s| < 2 then s
    else if s[0] == ' ' && s[1] == '\r' then ['\r', '\n'] + Crlf(s[2..])
    else [s[0]] + Crlf(s[1..])
  }

  /** The substitution looks at two neighbouring bytes only and keeps every position. */
  lemma {:induction false} CrlfAt(s: string, i: nat)
    requires i < |s|
    ensures Crlf(s)[i] ==
              if s[i] == ' ' && i + 1 < |s| && s[i + 1] == '\r' then '\r'
              else if s[i] == '\r' && i > 0 && s[i - 1] == ' ' then '\n'
              else s[i]
    decreases |s|
  {
    if |s| >= 2 {
      if s[0] == ' ' && s[1] == '\r' {
        if i >= 2 {
          CrlfAt(s[2..], i - 2);
        }
      } else if i >= 1 {
        CrlfAt(s[1..], i - 1);
      }
    }
  }

  // ---- What is sent ----

  /** The text of some chunks after the substitution in each of them. */
  function Content(chunks: seq<Chunk>): string {
    if chunks == [] then "" else Crlf(chunks[0].bytes) + Content(chunks[1..])
  }

  /** The substitution is made in every chunk on its own. */
  lemma {:induction false} ContentMeaning(before: seq<Chunk>, chunk: Chunk, after: seq<Chunk>, i: nat)
    requires i < |chunk.bytes|
    ensures var (all, at, s) := (Content(before + [chunk] + after), |Content(before)| + i, chunk.bytes);
            at < |all| && all[at] ==
              if s[i] == ' ' && i + 1 < |s| && s[i + 1] == '\r' then '\r'
              else if s[i] == '\r' && i > 0 && s[i - 1] == ' ' then '\n'
              else s[i]
    decreases |before|
  {
    if before == [] {
      assert before + [chunk] + after == [chunk] + after;
      CrlfAt(chunk.bytes, i);
    } else {
      assert (before + [chunk] + after)[1..] == before[1..] + [chunk] + after;
      ContentMeaning(before[1..], chunk, after, i);
    }
  }

  lemma {:induction false} ContentLength(chunks: seq<Chunk>, chunk: Chunk)
    ensures |Content(chunks + [chunk])| == |Content(chunks)| + |chunk.bytes|
    decreases |chunks|
  {
    if chunks == [] {
      assert chunks + [chunk] == [chunk] && Content([chunk][1..]) == "";
    } else {
      assert (chunks + [chunk])[1..] == chunks[1..] + [chunk];
      ContentLength(chunks[1..], chunk);
    }
  }

  /** One event, and the bytes dropped after it. */
  datatype Piece = Piece(sent: string, dropped: string)

  function Full(sent: string): seq<Piece> {
    if sent == "" then [] else [Piece(sent, "")]
  }

  /** One more chunk after `buf`: what is sent now, and what waits. */
  function Take(buf: string, chunk: Chunk): (r: (seq<Piece>, string))
    requires |buf| <= MAX_BUFFER
    ensures |r.1| <= MAX_BUFFER
  {
    var line := Crlf(chunk.bytes);
    if |buf| + |line| > MAX_BUFFER then
      ([Piece(buf + line[..MAX_BUFFER - |buf|], line[MAX_BUFFER - |buf|..])], "")
    else if chunk.isPrefix then ([], buf + line)
    else (Full(buf + line), "")
  }

  /** The events for `chunks` when `buf` is waiting; a read error loses what is waiting, the end does not. */
  function Scan(chunks: seq<Chunk>, buf: string, eof: bool): seq<Piece>
    requires |buf| <= MAX_BUFFER
    decreases |chunks|
  {
    if chunks == [] then if eof then Full(buf) else []
    else
      var (sent, left) := Take(buf, chunks[0]);
      sent + Scan(chunks[1..], left, eof)
  }

  function Events(pieces: seq<Piece>): (events: seq<string>)
    ensures |events| == |pieces| && forall i :: 0 <= i < |pieces| ==> events[i] == pieces[i].sent
  {
    if pieces == [] then [] else [pieces[0].sent] + Events(pieces[1..])
  }

  function Whole(pieces: seq<Piece>): string {
    if pieces == [] then "" else pieces[0].sent + pieces[0].dropped + Whole(pieces[1..])
  }

  lemma {:induction false} WholeConcat(a: seq<Piece>, b: seq<Piece>)
    ensures Whole(a + b) == Whole(a) + Whole(b)
    ensures Events(a + b) == Events(a) + Events(b)
    decreases |a|
  {
    if a == [] {
      assert a + b == b;
    } else {
      assert (a + b)[1..] == a[1..] + b;
      WholeConcat(a[1..], b);
      var first := a[0].sent + a[0].dropped;
      assert first + (Whole(a[1..]) + Whole(b)) == first + Whole(a[1..]) + Whole(b);
    }
  }

  lemma TakeConserves(buf: string, chunk: Chunk)
    requires |buf| <= MAX_BUFFER
    ensures Whole(Take(buf, chunk).0) + Take(buf, chunk).1 == buf + Crlf(chunk.bytes)
  {
    var line := Crlf(chunk.bytes);
    if |buf| + |line| > MAX_BUFFER {
      var k := MAX_BUFFER - |buf|;
      WholeOne(Piece(buf + line[..k], line[k..]));
      assert line == line[..k] + line[k..];
    } else if !chunk.isPrefix {
      WholeFull(buf + line);
    }
  }

  lemma WholeOne(p: Piece)
    ensures Whole([p]) == p.sent + p.dropped
  {
    assert [p][1..] == [];
  }

  lemma WholeFull(sent: string)
    ensures Whole(Full(sent)) == sent
  {
    if sent != "" {
      WholeOne(Piece(sent, ""));
    }
  }

  /** Up to the end of the stream nothing is lost or made up but the dropped bytes. */
  lemma {:induction false} ScanConserves(chunks: seq<Chunk>, buf: string)
    requires |buf| <= MAX_BUFFER
    ensures Whole(Scan(chunks, buf, true)) == buf + Content(chunks)
    decreases |chunks|
  {
    if chunks == [] {
      WholeFull(buf);
      assert buf + "" == buf;
    } else {
      var (sent, left) := Take(buf, chunks[0]);
      TakeConserves(buf, chunks[0]);
      ScanConserves(chunks[1..], left);
      WholeConcat(sent, Scan(chunks[1..], left, true));
      Associative(Whole(sent), left, Content(chunks[1..]));
      Associative(buf, Crlf(chunks[0].bytes), Content(chunks[1..]));
    }
  }

  lemma Associative(a: string, b: string, c: string)
    ensures a + b + c == a + (b + c)
  {
  }

  /** Every event has 1 to 65536 bytes; only after a full one is anything dropped, and at most one chunk. */
  lemma {:induction false} ScanBounds(chunks: seq<Chunk>, buf: string, eof: bool, i: nat)
    requires Readable(chunks) && |buf| <= MAX_BUFFER && i < |Scan(chunks, buf, eof)|
    ensures var p := Scan(chunks, buf, eof)[i];
            && 0 < |p.sent| <= 65536 && |p.dropped| <= 256
            && (p.dropped != "" ==> |p.sent| == 65536)
    decreases |chunks|
  {
    if chunks != [] {
      var (sent, left) := Take(buf, chunks[0]);
      ReadableRest(chunks);
      assert FromReader(chunks, 0);
      if i >= |sent| {
        ScanBounds(chunks[1..], left, eof, i - |sent|);
      }
    }
  }

  // ---- Lines ----

  /** The chunks of one line. */
  ghost predicate IsLine(line: seq<Chunk>) {
    line != [] && !line[|line| - 1].isPrefix && forall i :: 0 <= i < |line| - 1 ==> line[i].isPrefix
  }

  lemma Regrouped(a: seq<Piece>, b: seq<Piece>, c: seq<Piece>)
    ensures a + (b + c) == a + b + c
  {
  }

  /** A line is cut up on its own, whatever comes before and after it. */
  lemma {:induction false} LineByLine(line: seq<Chunk>, rest: seq<Chunk>, buf: string, eof: bool)
    requires IsLine(line) && |buf| <= MAX_BUFFER
    ensures Scan(line + rest, buf, eof) == Scan(line, buf, true) + Scan(rest, "", eof)
    decreases |line|
  {
    var (sent, left) := Take(buf, line[0]);
    assert (line + rest)[1..] == line[1..] + rest;
    assert Scan(line + rest, buf, eof) == sent + Scan(line[1..] + rest, left, eof);
    if |line| == 1 {
      assert line[1..] + rest == rest;
      assert Scan(line, buf, true) == sent + [];
    } else {
      assert IsLine(line[1..]);
      LineByLine(line[1..], rest, left, eof);
      Regrouped(sent, Scan(line[1..], left, true), Scan(rest, "", eof));
    }
  }

  /** A line that fits is sent whole, an empty line not at all. */
  lemma {:induction false} ShortLine(line: seq<Chunk>, buf: string)
    requires IsLine(line) && |buf + Content(line)| <= MAX_BUFFER
    ensures Scan(line, buf, true) == Full(buf + Content(line))
    decreases |line|
  {
    var text := Crlf(line[0].bytes);
    if |line| > 1 {
      assert IsLine(line[1..]);
      assert buf + Content(line) == (buf + text) + Content(line[1..]);
      ShortLine(line[1..], buf + text);
    } else {
      assert Content(line[1..]) == "";
      assert buf + Content(line) == buf + text;
      assert Scan(line[1..], "", true) == [];
    }
  }

  /**
   Text without a line end at the end of the stream is sent, whether the stream ends there or reading
   fails, unless reading fails right after a full buffer: then it is lost.
   */
  lemma UnfinishedLine(part: seq<Chunk>, eof: bool)
    requires Readable(part) && part != [] && |Content(part)| <= 65536
    requires forall i :: 0 <= i < |part| - 1 ==> part[i].isPrefix
    ensures Scan(part, "", eof) == if eof || !part[|part| - 1].isPrefix then Full(Content(part)) else []
    ensures part[|part| - 1].isPrefix ==> |part[|part| - 1].bytes| == 256
  {
    assert FromReader(part, |part| - 1);
    UnfinishedTail(part, "", eof);
    assert "" + Content(part) == Content(part);
  }

  lemma {:induction false} UnfinishedTail(part: seq<Chunk>, buf: string, eof: bool)
    requires part != [] && |buf + Content(part)| <= MAX_BUFFER
    requires forall i :: 0 <= i < |part| - 1 ==> part[i].isPrefix
    ensures Scan(part, buf, eof) == if eof || !part[|part| - 1].isPrefix then Full(buf + Content(part)) else []
    decreases |part|
  {
    Associative(buf, Crlf(part[0].bytes), Content(part[1..]));
    var (sent, left) := Take(buf, part[0]);
    if |part| > 1 {
      UnfinishedTail(part[1..], left, eof);
    } else {
      assert part[1..] == [] && Content(part[1..]) == "";
      assert (buf + Crlf(part[0].bytes)) + "" == buf + Crlf(part[0].bytes);
      assert Scan(part[1..], left, eof) == if eof then Full(left) else [];
    }
  }

  function NonEmpty(lines: seq<seq<Chunk>>): seq<string> {
    if lines == [] then []
    else (if Content(lines[0]) == "" then [] else [Content(lines[0])]) + NonEmpty(lines[1..])
  }

  /** Lines of at most 65536 bytes come out whole and in order, without the empty ones. */
  lemma {:induction false} ShortLines(lines: seq<seq<Chunk>>, eof: bool)
    requires forall i :: 0 <= i < |lines| ==> IsLine(lines[i]) && |Content(lines[i])| <= 65536
    ensures Events(Scan(Flatten(lines), "", eof)) == NonEmpty(lines)
    decreases |lines|
  {
    if lines != [] {
      LineByLine(lines[0], Flatten(lines[1..]), "", eof);
      ShortLine(lines[0], "");
      assert "" + Content(lines[0]) == Content(lines[0]);
      ShortLines(lines[1..], eof);
      WholeConcat(Scan(lines[0], "", true), Scan(Flatten(lines[1..]), "", eof));
    }
  }

  /**
   A longer line is not truncated to one event: its events and the bytes dropped between them make up
   the whole line, and all but the last event are full.
   */
  lemma LongLine(line: seq<Chunk>, i: nat)
    requires IsLine(line) && Readable(line) && i < |Scan(line, "", true)|
    ensures Whole(Scan(line, "", true)) == Content(line)
    ensures i < |Scan(line, "", true)| - 1 ==> |Scan(line, "", true)[i].sent| == 65536
    ensures |Content(line)| > 65536 + 256 ==> |Scan(line, "", true)| > 1
  {
    var pieces := Scan(line, "", true);
    ScanConserves(line, "");
    if |pieces| == 1 {
      ScanBounds(line, "", true, 0);
      WholeOne(pieces[0]);
      assert pieces == [pieces[0]];
    }
    if i < |Scan(line, "", true)| - 1 {
      AllButLastFull(line, "", i);
    }
  }

  /** What follows the first chunk with which the text, after `n` bytes, goes beyond the buffer. */
  function Beyond(line: seq<Chunk>, n: nat): string {
    if line == [] then ""
    else if n + |line[0].bytes| > MAX_BUFFER then Content(line[1..])
    else Beyond(line[1..], n + |line[0].bytes|)
  }

  /**
   A line gives more than one event exactly when text follows the chunk with which it goes beyond 65536
   bytes.
   */
  lemma {:induction false} MoreThanOneEvent(line: seq<Chunk>, buf: string)
    requires IsLine(line) && |buf| <= MAX_BUFFER
    ensures |Scan(line, buf, true)| > 1 <==> Beyond(line, |buf|) != ""
    decreases |line|
  {
    var (sent, left) := Take(buf, line[0]);
    if |line| > 1 {
      assert IsLine(line[1..]);
      if |buf| + |line[0].bytes| > MAX_BUFFER {
        NothingToSend(line[1..], left);
      } else {
        MoreThanOneEvent(line[1..], left);
      }
    } else {
      assert Content(line[1..]) == "" && Scan(line[1..], "", true) == [];
    }
  }

  lemma NothingToSend(line: seq<Chunk>, buf: string)
    requires |buf| <= MAX_BUFFER
    ensures Scan(line, buf, true) == [] <==> buf + Content(line) == ""
  {
    ScanConserves(line, buf);
    if Scan(line, buf, true) != [] {
      SentIsNotEmpty(line, buf);
    }
  }

  lemma {:induction false} SentIsNotEmpty(line: seq<Chunk>, buf: string)
    requires |buf| <= MAX_BUFFER && Scan(line, buf, true) != []
    ensures Whole(Scan(line, buf, true)) != ""
    decreases |line|
  {
    if line != [] {
      var (sent, left) := Take(buf, line[0]);
      WholeConcat(sent, Scan(line[1..], left, true));
      if sent == [] {
        SentIsNotEmpty(line[1..], left);
      }
    }
  }

  /** Every chunk of the line but the last fills the reader's buffer. */
  ghost predicate FullChunks(line: seq<Chunk>) {
    && (forall i :: 0 <= i < |line| - 1 ==> |line[i].bytes| == CHUNK)
    && (line != [] ==> |line[|line| - 1].bytes| <= CHUNK)
  }

  /** With no carriage return kept back, a line gives one event exactly when it has at most 65536 + 256 bytes. */
  lemma OneEventUpTo(line: seq<Chunk>)
    requires IsLine(line) && FullChunks(line)
    ensures |Scan(line, "", true)| <= 1 <==> |Content(line)| <= 65536 + 256
  {
    MoreThanOneEvent(line, "");
    BeyondFull(line, 0);
    assert 256 * 0 == 0;
  }

  /** After `k` full chunks. */
  lemma {:induction false} BeyondFull(line: seq<Chunk>, k: nat)
    requires FullChunks(line) && k <= 256
    ensures Beyond(line, 256 * k) == "" <==> 256 * k + |Content(line)| <= 65536 + 256
    decreases |line|
  {
    if |line| > 1 {
      RestIsFull(line);
      if k < 256 {
        BeyondFull(line[1..], k + 1);
      }
    } else if |line| == 1 {
      assert line[1..] == [];
    }
  }

  lemma RestIsFull(line: seq<Chunk>)
    requires FullChunks(line) && |line| > 1
    ensures FullChunks(line[1..]) && |line[0].bytes| == 256
  {
  }

  lemma {:induction false} AllButLastFull(line: seq<Chunk>, buf: string, i: nat)
    requires IsLine(line) && |buf| <= MAX_BUFFER && i < |Scan(line, buf, true)| - 1
    ensures |Scan(line, buf, true)[i].sent| == MAX_BUFFER
    decreases |line|
  {
    if |line| > 1 {
      assert IsLine(line[1..]);
      var (sent, left) := Take(buf, line[0]);
      if i >= |sent| {
        AllButLastFull(line[1..], left, i - |sent|);
      }
    }
  }

  // ---- The code ----

  datatype End = LineEnd | StreamEnd | ReadError

  /** The inner loop: fills the buffer up to the end of the line, of the stream, or of the buffer. */
  method FillBuffer(chunks: seq<Chunk>, start: nat, eof: bool) returns (buf: string, pos: nat, end: End, ghost dropped: string)
    requires start <= |chunks|
    ensures start <= pos <= |chunks| && (end == LineEnd ==> start < pos)
    ensures end == ReadError ==> !eof && Scan(chunks[start..], "", eof) == []
    ensures end == StreamEnd ==> eof && Scan(chunks[start..], "", eof) == Full(buf)
    ensures end == LineEnd ==>
              Scan(chunks[start..], "", eof) == (if buf == "" then [] else [Piece(buf, dropped)]) + Scan(chunks[pos..], "", eof)
  {
    buf, pos, dropped := "", start, "";
    while true
      invariant start <= pos <= |chunks| && |buf| <= MAX_BUFFER
      invariant Scan(chunks[pos..], buf, eof) == Scan(chunks[start..], "", eof)
      decreases |chunks| - pos
    {
      if pos == |chunks| {
        end := if eof then StreamEnd else ReadError;
        return;
      }
      var line := Crlf(chunks[pos].bytes);
      var isPrefix := chunks[pos].isPrefix;
      pos := pos + 1;
      assert chunks[pos - 1..][1..] == chunks[pos..];
      var ns := |buf| + |line|;
      if ns > MAX_BUFFER {
        dropped := line[|line| - (ns - MAX_BUFFER)..];
        buf := buf + line[..|line| - (ns - MAX_BUFFER)];
        return buf, pos, LineEnd, dropped;
      }
      buf := buf + line;
      if !isPrefix {
        return buf, pos, LineEnd, dropped;
      }
    }
  }

  /** `eof`: the stream ends after the chunks; otherwise reading fails there. */
  method ScanReader(chunks: seq<Chunk>, eof: bool) returns (events: seq<string>, ok: bool)
    ensures ok <==> eof
    ensures events == Events(Scan(chunks, "", eof))
  {
    events := [];
    var pos := 0;
    while true
      invariant pos <= |chunks|
      invariant events + Events(Scan(chunks[pos..], "", eof)) == Events(Scan(chunks, "", eof))
      decreases |chunks| - pos
    {
      ghost var start := pos;
      var buf, end;
      ghost var dropped;
      buf, pos, end, dropped := FillBuffer(chunks, pos, eof);
      EventSent(events, buf, dropped, Scan(chunks[pos..], "", eof));
      if end == ReadError {
        return events, false;
      }
      if |buf| > 0 {
        events := events + [buf];
      }
      if end == StreamEnd {
        return events, true;
      }
    }
  }

  lemma EventSent(events: seq<string>, buf: string, dropped: string, rest: seq<Piece>)
    ensures var piece := if buf == "" then [] else [Piece(buf, dropped)];
            events + Events(piece + rest) == (if buf == "" then events else events + [buf]) + Events(rest)
    ensures events + Events(Full(buf)) == if buf == "" then events else events + [buf]
  {
    if buf == "" {
      assert [] + rest == rest;
    } else {
      assert ([Piece(buf, dropped)] + rest)[1..] == rest;
      assert events + ([buf] + Events(rest)) == (events + [buf]) + Events(rest);
      assert Events([Piece(buf, "")]) == [buf];
    }
  }
}
