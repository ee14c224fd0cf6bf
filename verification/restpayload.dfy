/**
  `RestApiHandler::on_read` (src/restapi.cpp:118-135): which line of the response becomes the
  message text.
 */
module RestPayload {
  import opened Seqs

  /** `std::getline`: the characters up to the next line feed, which is dropped, or up to the
      end of input. It fails when there is nothing left to extract. */
  method GetLine(stream: string, start: nat) returns (ok: bool, line: string, next: nat)
    requires start <= |stream|
    ensures ok <==> start < |stream|
    ensures ok ==>
      && start < next <= |stream| && line == FirstLine(stream[start..])
      && stream[next..] == AfterFirstLine(stream[start..])
    ensures !ok ==> next == start
  {
    if start == |stream| {
      return false, "", start;
    }
    next := start;
    while next < |stream| && stream[next] != '\n'
      invariant start <= next <= |stream|
      invariant '\n' !in stream[start..next]
    {
      next := next + 1;
    }
    line := stream[start..next];
    LineFrom(stream, start, next);
    if next < |stream| {
      next := next + 1;
    }
    return true, line, next;
  }

  function FirstLine(s: string): string {
    if s == [] || s[0] == '\n' then [] else [s[0]] + FirstLine(s[1..])
  }

  function AfterFirstLine(s: string): (rest: string)
    ensures |rest| <= |s| && (s != [] ==> |rest| < |s|)
  {
    if s == [] then [] else if s[0] == '\n' then s[1..] else AfterFirstLine(s[1..])
  }

  /** The lines that `getline` yields until end of input. */
  function Lines(s: string): seq<string>
    decreases |s|
  {
    if s == [] then [] else [FirstLine(s)] + Lines(AfterFirstLine(s))
  }

  /** The last line before the first empty one, and `none` when there is none. */
  function LastBeforeEmpty(lines: seq<string>, none: string): string {
    if lines == [] || lines[0] == [] then none else LastBeforeEmpty(lines[1..], lines[0])
  }

  /** What the extraction yields: the line before the end of input or the first empty line, and
      `none` when that comes first. */
  lemma {:induction false} LastBeforeEmptyIs(lines: seq<string>, none: string) returns (n: nat)
    ensures n <= |lines| && (n < |lines| ==> lines[n] == "")
    ensures forall i :: 0 <= i < n ==> lines[i] != ""
    ensures LastBeforeEmpty(lines, none) == if n == 0 then none else lines[n - 1]
    decreases |lines|
  {
    if lines == [] || lines[0] == "" {
      n := 0;
    } else {
      n := LastBeforeEmptyIs(lines[1..], lines[0]);
      n := n + 1;
    }
  }

  /** The extraction loop. */
  method ExtractPayload(stream: string) returns (text: string)
    ensures text == LastBeforeEmpty(Lines(stream), "")
  {
    text := "";
    var ok, line, next := GetLine(stream, 0);
    assert stream[0..] == stream;
    ghost var from := 0;
    while ok && line != ""
      invariant from <= |stream| && from <= next <= |stream|
      invariant ok <==> from < |stream|
      invariant ok ==> line == FirstLine(stream[from..]) && stream[next..] == AfterFirstLine(stream[from..])
      invariant ok ==> next > from
      invariant LastBeforeEmpty(Lines(stream), "") == LastBeforeEmpty(Lines(stream[from..]), text)
      decreases |stream| - from, ok
    {
      text := line;
      from := next;
      ok, line, next := GetLine(stream, next);
    }
  }

  lemma {:induction false} LineEndsAt(s: string, n: nat)
    requires n <= |s| && '\n' !in s[..n] && (n < |s| ==> s[n] == '\n')
    ensures FirstLine(s) == s[..n]
    ensures AfterFirstLine(s) == if n < |s| then s[n + 1..] else []
  {
    if n > 0 {
      assert s[0] == s[..n][0];
      assert s[1..][..n - 1] == s[..n][1..];
      assert forall c :: c in s[1..][..n - 1] ==> c in s[..n];
      LineEndsAt(s[1..], n - 1);
      assert s[..n] == [s[0]] + s[1..][..n - 1];
    }
  }

  lemma LineFrom(s: string, start: nat, end: nat)
    requires start <= end <= |s| && '\n' !in s[start..end] && (end < |s| ==> s[end] == '\n')
    ensures FirstLine(s[start..]) == s[start..end]
    ensures AfterFirstLine(s[start..]) == s[if end < |s| then end + 1 else end..]
  {
    var n := end - start;
    assert s[start..][..n] == s[start..end];
    LineEndsAt(s[start..], n);
    if end < |s| {
      assert s[start..][n + 1..] == s[end + 1..];
    }
  }

  /** How the read ended: `async_read_until` found its delimiter, the peer closed, or it failed. */
  datatype Ending = Delimiter | EndOfFile | Failed

  /** `on_read`: the texts it posts for `on_data`. */
  method OnRead(ending: Ending, stream: string) returns (posts: seq<string>)
    ensures posts == if ending == Failed then [] else [LastBeforeEmpty(Lines(stream), "")]
  {
    if ending != Failed {
      var text := ExtractPayload(stream);
      posts := [text];
    } else {
      posts := [];
    }
  }

  // ----- what the extracted line is -----

  const CR: string := "\r"
  const CRLF: string := "\r\n"

  ghost predicate NoLineFeed(s: string) {
    '\n' !in s
  }

  lemma LinesOfFirst(line: string, rest: string)
    requires NoLineFeed(line)
    ensures Lines(line + "\n" + rest) == [line] + Lines(rest)
  {
    var s := line + "\n" + rest;
    assert s[..|line|] == line && s[|line|..] == "\n" + rest && s[|line| + 1..] == rest;
    LineEndsAt(s, |line|);
  }

  lemma LinesOfLast(line: string)
    requires NoLineFeed(line) && line != ""
    ensures Lines(line) == [line]
  {
    assert line[..|line|] == line;
    LineEndsAt(line, |line|);
  }

  /** Lines put together again, each ended by a line feed. */
  function Joined(lines: seq<string>): string {
    if lines == [] then "" else lines[0] + "\n" + Joined(lines[1..])
  }

  /** What `Lines` says: joined they are the text, but for a line feed at its end, and they are the
      only lines of which that is true. */
  lemma {:induction false} LinesOfText(s: string)
    ensures forall i :: 0 <= i < |Lines(s)| ==> NoLineFeed(Lines(s)[i])
    ensures Joined(Lines(s)) == if s == "" || Last(s) == '\n' then s else s + "\n"
    decreases |s|
  {
    if s != "" {
      var first, rest := FirstLine(s), AfterFirstLine(s);
      FirstLineHasNoLineFeed(s);
      LinesOfText(rest);
      SplitAtFirst(s);
      assert ([first] + Lines(rest))[1..] == Lines(rest);
    }
  }

  lemma {:induction false} SplitAtFirst(s: string)
    requires s != ""
    ensures
      if '\n' in s then s == FirstLine(s) + "\n" + AfterFirstLine(s)
      else s == FirstLine(s) && AfterFirstLine(s) == "" && Last(s) != '\n'
    ensures AfterFirstLine(s) != "" ==> Last(AfterFirstLine(s)) == Last(s)
    ensures AfterFirstLine(s) == "" && '\n' in s ==> Last(s) == '\n'
  {
    if s[0] == '\n' {
      assert s == [s[0]] + s[1..];
    } else if |s| == 1 {
      assert s == [s[0]] && FirstLine(s[1..]) == "";
    } else {
      SplitAtFirst(s[1..]);
      assert s == [s[0]] + s[1..] && Last(s) == Last(s[1..]);
    }
  }

  lemma {:induction false} LinesOfJoined(lines: seq<string>)
    requires forall i :: 0 <= i < |lines| ==> NoLineFeed(lines[i])
    ensures Lines(Joined(lines)) == lines
    decreases |lines|
  {
    if lines != [] {
      LinesOfJoined(lines[1..]);
      LinesOfFirst(lines[0], Joined(lines[1..]));
      assert lines == [lines[0]] + lines[1..];
    }
  }

  /** A start line and field lines, each ended by CRLF. */
  function Head(lines: seq<string>): string {
    if lines == [] then "" else lines[0] + CRLF + Head(lines[1..])
  }

  /** A message in the format of section 2.1 of RFC 9112: the head, an empty line, the body. */
  function Response(head: seq<string>, body: string): string {
    Head(head) + CRLF + body
  }

  lemma {:induction false} SkipHead(head: seq<string>, body: string, none: string)
    requires forall i :: 0 <= i < |head| ==> NoLineFeed(head[i])
    ensures LastBeforeEmpty(Lines(Response(head, body)), none) == LastBeforeEmpty(Lines(body), CR)
    decreases |head|
  {
    if head == [] {
      assert Response(head, body) == CR + "\n" + body;
      LinesOfFirst(CR, body);
      assert ([CR] + Lines(body))[1..] == Lines(body);
    } else {
      var line := head[0] + CR;
      var rest := Response(head[1..], body);
      assert Response(head, body) == line + "\n" + rest;
      assert NoLineFeed(line);
      LinesOfFirst(line, rest);
      assert ([line] + Lines(rest))[1..] == Lines(rest);
      SkipHead(head[1..], body, line);
    }
  }

  lemma {:induction false} LinesHaveNoLineFeed(s: string, none: string)
    requires NoLineFeed(none)
    ensures NoLineFeed(LastBeforeEmpty(Lines(s), none))
    decreases |s|
  {
    if s != [] {
      FirstLineHasNoLineFeed(s);
      LinesHaveNoLineFeed(AfterFirstLine(s), FirstLine(s));
    }
  }

  lemma {:induction false} FirstLineHasNoLineFeed(s: string)
    ensures NoLineFeed(FirstLine(s))
  {
    if s != [] && s[0] != '\n' {
      FirstLineHasNoLineFeed(s[1..]);
    }
  }

  /** For every response that is not chunked the extracted text is the body exactly when the
      body is not empty and has no line feed. */
  lemma PayloadIsBodyIff(head: seq<string>, body: string)
    requires forall i :: 0 <= i < |head| ==> NoLineFeed(head[i])
    ensures LastBeforeEmpty(Lines(Response(head, body)), "") == body <==> body != "" && NoLineFeed(body)
  {
    SkipHead(head, body, "");
    LinesHaveNoLineFeed(body, CR);
    if body != "" && NoLineFeed(body) {
      LinesOfLast(body);
    }
  }

  lemma {:induction false} LinesConcat(a: string, b: string)
    requires a == [] || Last(a) == '\n'
    ensures Lines(a + b) == Lines(a) + Lines(b)
    decreases |a|
  {
    if a == [] {
      assert a + b == b;
    } else {
      FirstLineOfConcat(a, b);
      var rest := AfterFirstLine(a);
      LinesConcat(rest, b);
      assert Lines(a + b) == [FirstLine(a)] + Lines(rest + b);
      Regroup([FirstLine(a)], Lines(rest), Lines(b));
    }
  }

  lemma {:induction false} FirstLineOfConcat(a: string, b: string)
    requires a != [] && Last(a) == '\n'
    ensures FirstLine(a + b) == FirstLine(a)
    ensures AfterFirstLine(a + b) == AfterFirstLine(a) + b
    ensures AfterFirstLine(a) == [] || Last(AfterFirstLine(a)) == '\n'
    decreases |a|
  {
    assert (a + b)[0] == a[0] && (a + b)[1..] == a[1..] + b;
    if a[0] != '\n' {
      FirstLineOfConcat(a[1..], b);
    }
  }

  lemma {:induction false} LastOfNonEmpty(lines: seq<string>, none: string)
    requires forall i :: 0 <= i < |lines| ==> lines[i] != ""
    ensures LastBeforeEmpty(lines, none) == if lines == [] then none else Last(lines)
    decreases |lines|
  {
    if lines != [] {
      LastOfNonEmpty(lines[1..], lines[0]);
    }
  }

  /** The delimiter that the read waits for ends a chunked body. Of every stream that ends with it
      and has no empty line the extracted text is a bare CR. */
  lemma ChunkedYieldsBareCr(before: string)
    requires forall i :: 0 <= i < |Lines(before + "\r\n0\r\n\r\n")| ==> Lines(before + "\r\n0\r\n\r\n")[i] != ""
    ensures LastBeforeEmpty(Lines(before + "\r\n0\r\n\r\n"), "") == CR
  {
    var s, a := before + "\r\n0\r\n\r\n", before + "\r\n0\r\n";
    assert s == a + "\r\n";
    LinesConcat(a, "\r\n");
    LinesOfFirst(CR, "");
    assert CR + "\n" + "" == "\r\n";
    LastOfNonEmpty(Lines(s), "");
  }

  /** One chunk: its size line, which may carry extensions, and its data. */
  datatype Chunk = Chunk(size: string, data: string)

  /** A chunked body in the format of section 7.1 of RFC 9112: the chunks, the size line `last` of
      the last chunk, the trailer fields, and an empty line. */
  function Wire(chunks: seq<Chunk>, last: string, trailers: seq<string>): string {
    if chunks == [] then last + CRLF + Head(trailers) + CRLF
    else chunks[0].size + CRLF + chunks[0].data + CRLF + Wire(chunks[1..], last, trailers)
  }

  function DataOf(chunks: seq<Chunk>): string {
    if chunks == [] then "" else chunks[0].data + DataOf(chunks[1..])
  }

  /** The text after the trailers is a bare CR, whatever text preceded them. */
  lemma TrailersEndInCr(last: string, trailers: seq<string>, none: string)
    requires NoLineFeed(last) && forall i :: 0 <= i < |trailers| ==> NoLineFeed(trailers[i])
    ensures LastBeforeEmpty(Lines(Wire([], last, trailers)), none) == CR
  {
    var rest := Response(trailers, "");
    assert Wire([], last, trailers) == last + CR + "\n" + rest;
    LinesOfFirst(last + CR, rest);
    assert ([last + CR] + Lines(rest))[1..] == Lines(rest);
    SkipHead(trailers, "", last + CR);
  }

  /** Chunk data without line feed are each followed by CR, so none of their lines is empty, and
      the last line is the one that ends the body. */
  lemma {:induction false} ChunksEndInCr(chunks: seq<Chunk>, last: string, trailers: seq<string>, none: string)
    requires NoLineFeed(last) && forall i :: 0 <= i < |trailers| ==> NoLineFeed(trailers[i])
    requires forall i :: 0 <= i < |chunks| ==> NoLineFeed(chunks[i].size) && NoLineFeed(chunks[i].data)
    ensures LastBeforeEmpty(Lines(Wire(chunks, last, trailers)), none) == CR
    decreases |chunks|
  {
    if chunks == [] {
      TrailersEndInCr(last, trailers, none);
    } else {
      var size, data, rest := chunks[0].size + CR, chunks[0].data + CR, Wire(chunks[1..], last, trailers);
      assert Wire(chunks, last, trailers) == size + "\n" + (data + "\n" + rest);
      LinesOfFirst(size, data + "\n" + rest);
      LinesOfFirst(data, rest);
      assert ([size] + Lines(data + "\n" + rest))[1..] == Lines(data + "\n" + rest);
      assert ([data] + Lines(rest))[1..] == Lines(rest);
      ChunksEndInCr(chunks[1..], last, trailers, data);
    }
  }

  lemma {:induction false} DataWithoutLineFeed(chunks: seq<Chunk>)
    ensures NoLineFeed(DataOf(chunks)) <==> forall i :: 0 <= i < |chunks| ==> NoLineFeed(chunks[i].data)
    decreases |chunks|
  {
    if chunks != [] {
      DataWithoutLineFeed(chunks[1..]);
      assert forall i :: 0 < i < |chunks| ==> chunks[i] == chunks[1..][i - 1];
    }
  }

  /** For every chunked response the extracted text is the data that the chunks carry only when
      these data are themselves a bare CR. */
  lemma ChunkedPayloadIsDataIff(head: seq<string>, chunks: seq<Chunk>, last: string, trailers: seq<string>)
    requires forall i :: 0 <= i < |head| ==> NoLineFeed(head[i])
    requires NoLineFeed(last) && forall i :: 0 <= i < |trailers| ==> NoLineFeed(trailers[i])
    requires forall i :: 0 <= i < |chunks| ==> NoLineFeed(chunks[i].size)
    ensures LastBeforeEmpty(Lines(Response(head, Wire(chunks, last, trailers))), "") == DataOf(chunks)
       <==> DataOf(chunks) == CR
  {
    var body := Wire(chunks, last, trailers);
    SkipHead(head, body, "");
    LinesHaveNoLineFeed(body, CR);
    DataWithoutLineFeed(chunks);
    if NoLineFeed(DataOf(chunks)) {
      ChunksEndInCr(chunks, last, trailers, CR);
    }
  }
}
