/**
 * Newline-delimited JSON framing (packages/contracts/src/ndjson.ts). Text is a sequence of UTF-16
 * code units, which is what the length limit counts.
 */
module Ndjson {
  import opened Wrappers
  import opened JsonText
  import opened JsonReader

  datatype FrameTooLarge = FrameTooLarge(limit: nat)

  /** The lines of a text that are complete, as they are, and what comes after the last newline. */
  datatype Split = Split(lines: seq<Text>, rest: Text)

  /** The first newline at or after a position, or -1. */
  function FindNewline(s: Text, from: nat): (i: int)
    requires from <= |s|
    ensures i == -1 || from <= i < |s|
    decreases |s| - from
  {
    if from == |s| then -1 else if s[from] == NEWLINE then from else FindNewline(s, from + 1)
  }

  function IndexOfNewline(s: Text): (i: int)
    ensures -1 <= i < |s|
  {
    FindNewline(s, 0)
  }

  lemma {:induction false} FindsFirst(s: Text, from: nat)
    requires from <= |s|
    ensures var i := FindNewline(s, from);
            && (i >= 0 ==> s[i] == NEWLINE)
            && forall k :: from <= k < (if i == -1 then |s| else i) ==> s[k] != NEWLINE
    decreases |s| - from
  {
    if from < |s| && s[from] != NEWLINE {
      FindsFirst(s, from + 1);
    }
  }

  function SplitLines(s: Text): (d: Split)
    decreases |s|
  {
    var i := IndexOfNewline(s);
    if i == -1 then Split([], s)
    else
      var d := SplitLines(s[i + 1..]);
      Split([s[..i]] + d.lines, d.rest)
  }

  /** What a decoder makes of one line: nothing if it is empty once it is trimmed. */
  function CleanLine(raw: Text): seq<Text> {
    var line := Trim(raw);
    if line == [] then [] else [line]
  }

  /** What is left of a line are all its units from the first to the last that is not white space, if there is one. */
  lemma CleanLineMeans(raw: Text)
    ensures CleanLine(raw) == [] <==> forall u :: u in raw ==> IsSpace(u)
    ensures CleanLine(raw) != [] ==>
              exists i, j :: 0 <= i < j <= |raw| && CleanLine(raw) == [raw[i..j]]
                             && !IsSpace(raw[i]) && !IsSpace(raw[j - 1])
                             && forall k :: 0 <= k < i || j <= k < |raw| ==> IsSpace(raw[k])
  {
    var i := FirstInk(raw, 0);
    var j := LastInk(raw, i, |raw|);
    if i == j {
      assert forall k :: 0 <= k < |raw| ==> IsSpace(raw[k]);
    } else {
      assert raw[i] in raw && Trim(raw) == raw[i..j];
    }
  }

  /** The lines that are not empty once they are trimmed. */
  function Clean(lines: seq<Text>): seq<Text> {
    CollectAll(CleanLine, lines)
  }

  function CollectAll(clean: Text -> seq<Text>, lines: seq<Text>): seq<Text> {
    if lines == [] then [] else CollectAll(clean, lines[..|lines| - 1]) + clean(lines[|lines| - 1])
  }

  class NdjsonDecoder {
    var buffer: Text
    const limit: nat

    constructor (limit: nat)
      ensures buffer == [] && this.limit == limit
    {
      this.limit := limit;
      buffer := [];
    }

    /** The limit is on everything that is buffered, whether or not it contains complete lines. */
    method Push(chunk: Text) returns (r: Result<seq<Text>, FrameTooLarge>)
      modifies this
      ensures r.Err? <==> |old(buffer)| + |chunk| > limit
      ensures r.Err? ==> buffer == [] && r.error == FrameTooLarge(limit)
      ensures r.Ok? ==>
                var split := SplitLines(old(buffer) + chunk);
                r.value == Clean(split.lines) && buffer == split.rest
    {
      buffer := buffer + chunk;
      if |buffer| > limit {
        buffer := [];
        return Err(FrameTooLarge(limit));
      }

      ghost var split, taken := SplitLines(buffer), [];
      assert IsSplitSoFar(split, taken, buffer) by {
        assert [] + SplitLines(buffer).lines == SplitLines(buffer).lines;
      }
      var lines := [];
      var index := IndexOfNewline(buffer);
      while index != -1
        invariant index == IndexOfNewline(buffer)
        invariant IsSplitSoFar(split, taken, buffer)
        invariant lines == Clean(taken)
        decreases |buffer|
      {
        var line := Trim(buffer[..index]);
        TakeLine(split, taken, buffer);
        CleanOneMore(taken, buffer[..index]);
        taken := taken + [buffer[..index]];
        lines := if line != [] then lines + [line] else lines;
        buffer := buffer[index + 1..];
        index := IndexOfNewline(buffer);
      }
      NoLineLeft(split, taken, buffer);
      return Ok(lines);
    }

    method Reset()
      modifies this
      ensures buffer == []
    {
      buffer := [];
    }
  }

  /** The split of a text of which some lines have been taken, and the buffer is left. */
  ghost predicate IsSplitSoFar(split: Split, taken: seq<Text>, buffer: Text) {
    split == Split(taken + SplitLines(buffer).lines, SplitLines(buffer).rest)
  }

  lemma TakeLine(split: Split, taken: seq<Text>, buffer: Text)
    requires IsSplitSoFar(split, taken, buffer) && IndexOfNewline(buffer) >= 0
    ensures var i := IndexOfNewline(buffer); IsSplitSoFar(split, taken + [buffer[..i]], buffer[i + 1..])
  {
    var i := IndexOfNewline(buffer);
    Regroup(taken, [buffer[..i]], SplitLines(buffer[i + 1..]).lines);
  }

  lemma NoLineLeft(split: Split, taken: seq<Text>, buffer: Text)
    requires IsSplitSoFar(split, taken, buffer) && IndexOfNewline(buffer) == -1
    ensures split == Split(taken, buffer)
  {
    assert taken + [] == taken;
  }

  lemma CleanOneMore(lines: seq<Text>, raw: Text)
    ensures Clean(lines + [raw]) == if Trim(raw) != [] then Clean(lines) + [Trim(raw)] else Clean(lines)
  {
    assert (lines + [raw])[..|lines|] == lines;
    assert Clean(lines) + [] == Clean(lines);
  }

  lemma Regroup(a: seq<Text>, b: seq<Text>, c: seq<Text>)
    ensures a + (b + c) == a + b + c
  {
  }

  // ----- Independence from the way a stream is cut into chunks

  lemma NoNewline(s: Text)
    requires NEWLINE !in s
    ensures SplitLines(s) == Split([], s)
  {
    FindsFirst(s, 0);
  }

  lemma SplitAt(s: Text, i: nat)
    requires i < |s| && s[i] == NEWLINE && forall k :: 0 <= k < i ==> s[k] != NEWLINE
    ensures var d := SplitLines(s[i + 1..]);
            SplitLines(s) == Split([s[..i]] + d.lines, d.rest)
  {
    FindsFirst(s, 0);
    assert IndexOfNewline(s) == i;
  }

  /** A text put back together: every line with its newline, then the rest. */
  function Unsplit(split: Split): Text
    decreases |split.lines|
  {
    if split.lines == [] then split.rest
    else split.lines[0] + [NEWLINE] + Unsplit(Split(split.lines[1..], split.rest))
  }

  /** Splitting loses nothing, and neither a line nor the rest contains a newline. */
  lemma SplitIsExact(s: Text)
    ensures var split := SplitLines(s);
            && Unsplit(split) == s
            && NEWLINE !in split.rest && forall line :: line in split.lines ==> NEWLINE !in line
    decreases |s|
  {
    LinesHaveNoNewline(s);
    UnsplitIsTheText(s);
  }

  lemma {:induction false} LinesHaveNoNewline(s: Text)
    ensures var split := SplitLines(s);
            NEWLINE !in split.rest && forall line :: line in split.lines ==> NEWLINE !in line
    decreases |s|
  {
    var i := IndexOfNewline(s);
    FindsFirst(s, 0);
    if i != -1 {
      LinesHaveNoNewline(s[i + 1..]);
      assert NEWLINE !in s[..i];
    }
  }

  lemma {:induction false} UnsplitIsTheText(s: Text)
    ensures Unsplit(SplitLines(s)) == s
    decreases |s|
  {
    var i := IndexOfNewline(s);
    FindsFirst(s, 0);
    if i != -1 {
      var line, more := s[..i], s[i + 1..];
      SplitAt(s, i);
      UnsplitIsTheText(more);
      UnsplitFirst(line, SplitLines(more));
      CutAt(s, i);
    }
  }

  lemma CutAt(s: Text, i: nat)
    requires i < |s| && s[i] == NEWLINE
    ensures s == s[..i] + [NEWLINE] + s[i + 1..]
  {
  }

  lemma UnsplitFirst(line: Text, rest: Split)
    ensures Unsplit(Split([line] + rest.lines, rest.rest)) == line + [NEWLINE] + Unsplit(rest)
  {
    assert ([line] + rest.lines)[1..] == rest.lines;
  }

  /** Splitting a stream in two parts is splitting the first and carrying its rest over. */
  lemma {:induction false} SplitConcat(a: Text, b: Text)
    ensures var first := SplitLines(a);
            var second := SplitLines(first.rest + b);
            SplitLines(a + b) == Split(first.lines + second.lines, second.rest)
    decreases |a|
  {
    var i := IndexOfNewline(a);
    FindsFirst(a, 0);
    if i == -1 {
      assert [] + SplitLines(a + b).lines == SplitLines(a + b).lines;
    } else {
      var s, tail := a + b, a[i + 1..];
      assert s[..i] == a[..i] && s[i + 1..] == tail + b;
      SplitAt(a, i);
      SplitAt(s, i);
      SplitConcat(tail, b);
      Regroup([a[..i]], SplitLines(tail).lines, SplitLines(SplitLines(tail).rest + b).lines);
    }
  }

  lemma {:induction false} CollectConcat(clean: Text -> seq<Text>, a: seq<Text>, b: seq<Text>)
    ensures CollectAll(clean, a + b) == CollectAll(clean, a) + CollectAll(clean, b)
  {
    if b == [] {
      assert a + b == a;
    } else {
      var n := |b| - 1;
      assert (a + b)[..|a| + n] == a + b[..n] && (a + b)[|a| + n] == b[n];
      CollectConcat(clean, a, b[..n]);
      Regroup(CollectAll(clean, a), CollectAll(clean, b[..n]), clean(b[n]));
    }
  }

  function Concat(chunks: seq<Text>): Text {
    if chunks == [] then [] else Concat(chunks[..|chunks| - 1]) + chunks[|chunks| - 1]
  }

  /** What a decoder with nothing buffered has put out, and holds, after a sequence of pushes. */
  function PushAll(limit: nat, chunks: seq<Text>): Result<Split, FrameTooLarge> {
    if chunks == [] then Ok(Split([], []))
    else
      match PushAll(limit, chunks[..|chunks| - 1])
      case Err(e) => Err(e)
      case Ok(before) =>
        var split := SplitLines(before.rest + chunks[|chunks| - 1]);
        if |before.rest + chunks[|chunks| - 1]| > limit then Err(FrameTooLarge(limit))
        else Ok(Split(before.lines + Clean(split.lines), split.rest))
  }

  /** Push `k` adds to the unterminated tail of the stream so far without going over the limit. */
  ghost predicate FitsAt(limit: nat, chunks: seq<Text>, k: nat)
    requires k < |chunks|
  {
    |SplitLines(Concat(chunks[..k])).rest| + |chunks[k]| <= limit
  }

  ghost predicate NeverOver(limit: nat, chunks: seq<Text>) {
    forall k :: 0 <= k < |chunks| ==> FitsAt(limit, chunks, k)
  }

  /**
   * However a stream is cut, the decoder puts out the trimmed non-empty lines of the whole stream
   * and keeps its unterminated tail; it fails exactly when some push goes over the limit.
   */
  lemma {:induction false} ChunkIndependence(limit: nat, chunks: seq<Text>)
    ensures PushAll(limit, chunks).Ok? <==> NeverOver(limit, chunks)
    ensures var whole := SplitLines(Concat(chunks));
            PushAll(limit, chunks).Ok? ==> PushAll(limit, chunks).value == Split(Clean(whole.lines), whole.rest)
  {
    if chunks == [] {
      NoNewline([]);
    } else {
      var before, last := chunks[..|chunks| - 1], chunks[|chunks| - 1];
      assert before + [last] == chunks;
      ChunkIndependence(limit, before);
      PushOneMore(limit, before, last);
      SplitOneMore(before, last);
      NeverOverOneMore(limit, before, last);
    }
  }

  lemma PushOneMore(limit: nat, before: seq<Text>, last: Text)
    ensures PushAll(limit, before + [last])
            == match PushAll(limit, before)
               case Err(e) => Err(e)
               case Ok(sofar) =>
                 var split := SplitLines(sofar.rest + last);
                 if |sofar.rest| + |last| > limit then Err(FrameTooLarge(limit))
                 else Ok(Split(sofar.lines + Clean(split.lines), split.rest))
  {
    assert (before + [last])[..|before|] == before;
  }

  lemma SplitOneMore(before: seq<Text>, last: Text)
    ensures var sofar, whole := SplitLines(Concat(before)), SplitLines(Concat(before + [last]));
            var split := SplitLines(sofar.rest + last);
            Clean(whole.lines) == Clean(sofar.lines) + Clean(split.lines) && whole.rest == split.rest
  {
    assert (before + [last])[..|before|] == before;
    var sofar := SplitLines(Concat(before));
    SplitConcat(Concat(before), last);
    CollectConcat(CleanLine, sofar.lines, SplitLines(sofar.rest + last).lines);
  }

  lemma FitsInPrefix(limit: nat, before: seq<Text>, last: Text, k: nat)
    requires k <= |before|
    ensures FitsAt(limit, before + [last], k)
            <==> if k < |before| then FitsAt(limit, before, k) else |SplitLines(Concat(before)).rest| + |last| <= limit
  {
    assert (before + [last])[..k] == before[..k];
    assert before[..|before|] == before;
  }

  lemma NeverOverOneMore(limit: nat, before: seq<Text>, last: Text)
    ensures NeverOver(limit, before + [last])
            <==> NeverOver(limit, before) && |SplitLines(Concat(before)).rest| + |last| <= limit
  {
    var chunks := before + [last];
    forall k | 0 <= k < |before| ensures FitsAt(limit, chunks, k) <==> FitsAt(limit, before, k) {
      FitsInPrefix(limit, before, last, k);
    }
    FitsInPrefix(limit, before, last, |before|);
    if NeverOver(limit, chunks) {
      assert FitsAt(limit, chunks, |before|);
      assert forall k :: 0 <= k < |before| ==> FitsAt(limit, chunks, k);
    }
  }

  // ----- Frames

  /** The frame of a message: its JSON text and a newline, if that fits. */
  function EncodeFrame(message: Json, limit: nat): (r: Result<Text, FrameTooLarge>)
    ensures r.Ok? <==> |Stringify(message)| < limit
    ensures r.Ok? ==> 0 < |r.value| <= limit && r.value[|r.value| - 1] == NEWLINE
    ensures r.Ok? ==> Parse(r.value[..|r.value| - 1]) == Some(message)
    ensures r.Err? ==> r.error == FrameTooLarge(limit)
  {
    var payload := Stringify(message);
    ParseRoundTrip(message);
    assert (payload + [NEWLINE])[..|payload|] == payload;
    if |payload| + 1 > limit then Err(FrameTooLarge(limit)) else Ok(payload + [NEWLINE])
  }

  function Payloads(messages: seq<Json>): seq<Text> {
    if messages == [] then [] else Payloads(messages[..|messages| - 1]) + [Stringify(messages[|messages| - 1])]
  }

  /** The frames of messages that are each within the limit, one after the other. */
  function Frames(messages: seq<Json>, limit: nat): Text
    requires forall m :: m in messages ==> EncodeFrame(m, limit).Ok?
  {
    if messages == [] then []
    else Frames(messages[..|messages| - 1], limit) + EncodeFrame(messages[|messages| - 1], limit).value
  }

  lemma SplitFrame(payload: Text)
    requires NEWLINE !in payload
    ensures SplitLines(payload + [NEWLINE]) == Split([payload], [])
  {
    var frame := payload + [NEWLINE];
    assert frame[..|payload|] == payload && frame[|payload| + 1..] == [];
    SplitAt(frame, |payload|);
    NoNewline([]);
  }

  lemma {:induction false} SplitFrames(messages: seq<Json>, limit: nat)
    requires forall m :: m in messages ==> EncodeFrame(m, limit).Ok?
    ensures SplitLines(Frames(messages, limit)) == Split(Payloads(messages), [])
    ensures Clean(Payloads(messages)) == Payloads(messages)
  {
    if messages == [] {
      NoNewline([]);
    } else {
      var before, last := messages[..|messages| - 1], messages[|messages| - 1];
      StringifyIsOneLine(last);
      SplitFrames(before, limit);
      AddFrame(Frames(before, limit), Payloads(before), Stringify(last));
    }
  }

  lemma AddFrame(frames: Text, payloads: seq<Text>, payload: Text)
    requires SplitLines(frames) == Split(payloads, []) && Clean(payloads) == payloads
    requires NEWLINE !in payload && payload != [] && Trim(payload) == payload
    ensures SplitLines(frames + (payload + [NEWLINE])) == Split(payloads + [payload], [])
    ensures Clean(payloads + [payload]) == payloads + [payload]
  {
    SplitFrame(payload);
    SplitConcat(frames, payload + [NEWLINE]);
    assert [] + (payload + [NEWLINE]) == payload + [NEWLINE];
    CleanOneMore(payloads, payload);
  }

  /** The lines parse as the messages, one by one. */
  ghost predicate Carry(lines: seq<Text>, messages: seq<Json>) {
    |lines| == |messages| && forall i :: 0 <= i < |lines| ==> Parse(lines[i]) == Some(messages[i])
  }

  /** Lines carry at most one sequence of messages. */
  lemma CarryOnlyThese(lines: seq<Text>, a: seq<Json>, b: seq<Json>)
    requires Carry(lines, a) && Carry(lines, b)
    ensures a == b
  {
    forall i | 0 <= i < |a| ensures a[i] == b[i] {
      assert Parse(lines[i]) == Some(a[i]);
    }
  }

  lemma {:induction false} PayloadsCarry(messages: seq<Json>)
    ensures Carry(Payloads(messages), messages)
  {
    if messages != [] {
      PayloadsCarry(messages[..|messages| - 1]);
      ParseRoundTrip(messages[|messages| - 1]);
    }
  }

  /**
   * Frames sent one after the other arrive as the same messages, however the stream is cut: unless a
   * push goes over the limit, the lines that come out parse as the messages that were sent and no others.
   */
  lemma FramesArrive(limit: nat, messages: seq<Json>, chunks: seq<Text>)
    requires forall m :: m in messages ==> EncodeFrame(m, limit).Ok?
    requires Concat(chunks) == Frames(messages, limit)
    ensures PushAll(limit, chunks).Ok? <==> NeverOver(limit, chunks)
    ensures PushAll(limit, chunks).Ok? ==>
              var out := PushAll(limit, chunks).value;
              out.rest == [] && forall received :: Carry(out.lines, received) <==> received == messages
  {
    ChunkIndependence(limit, chunks);
    SplitFrames(messages, limit);
    PayloadsCarry(messages);
    forall received | Carry(Payloads(messages), received) ensures received == messages {
      CarryOnlyThese(Payloads(messages), received, messages);
    }
  }

  /**
   * Frames that are each within the limit can still be refused when they arrive together: in one
   * push they get through if and only if all of them fit in the buffer at once.
   */
  lemma FramesArriveTogether(limit: nat, messages: seq<Json>)
    requires forall m :: m in messages ==> EncodeFrame(m, limit).Ok?
    ensures PushAll(limit, [Frames(messages, limit)]).Ok? <==> |Frames(messages, limit)| <= limit
  {
    var chunk := Frames(messages, limit);
    var chunks: seq<Text> := [chunk];
    assert chunks[..0] == [];
    assert PushAll(limit, []) == Ok(Split([], []));
    assert [] + chunk == chunk;
  }

  /** Two copies of the shortest message do not get through a decoder that has room for one of them. */
  lemma TwoFramesAreOneTooMany()
    ensures EncodeFrame(Number([0x30]), 3).Ok?
    ensures PushAll(3, [Frames([Number([0x30]), Number([0x30])], 3)]) == Err(FrameTooLarge(3))
  {
    var zero := Number([0x30]);
    var messages := [zero, zero];
    var one: seq<Json> := [zero];
    assert messages[..1] == one && one[..0] == [];
    assert Frames([], 3) == [] && Frames(one, 3) == [] + [0x30, NEWLINE];
    assert |Frames(messages, 3)| == 4;
    FramesArriveTogether(3, messages);
  }
}
