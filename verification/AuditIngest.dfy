/**
 Audit ingestion: cutting a stream into lines, and the bounded queue that feeds the consumer.
 */
module AuditIngest {
  import opened Wrappers
  import opened TokenBucket

  // ---------------------------------------------------------------------------
  // Lines
  // ---------------------------------------------------------------------------

  /** Longest partial line carried from one chunk to the next: 64 KiB. */
  const PARTIAL_LINE_CAP := 65536

  /** The complete lines of a text, and the partial line after the last newline. */
  datatype Scan = Scan(lines: seq<string>, rest: string)

  function ScanChar(scan: Scan, c: char): Scan {
    if c == '\n' then Scan(scan.lines + [scan.rest], "") else Scan(scan.lines, scan.rest + [c])
  }

  /** Splitting at newlines, the last piece set aside. */
  function ScanText(text: string): Scan {
    if |text| == 0 then Scan([], "") else ScanChar(ScanText(text[..|text| - 1]), text[|text| - 1])
  }

  /** The lines with a newline after each. */
  function Ended(lines: seq<string>): string {
    if |lines| == 0 then "" else Ended(lines[..|lines| - 1]) + (lines[|lines| - 1] + ['\n'])
  }

  lemma EndedWithChar(scan: Scan, c: char)
    ensures Ended(ScanChar(scan, c).lines) + ScanChar(scan, c).rest == Ended(scan.lines) + scan.rest + [c]
  {
    if c == '\n' {
      var lines := scan.lines + [scan.rest];
      assert lines[..|lines| - 1] == scan.lines;
      assert Ended(lines) == Ended(scan.lines) + (scan.rest + [c]);
      assert Ended(lines) + "" == Ended(lines);
    }
  }

  lemma {:induction false} SplitRejoins(text: string)
    ensures Ended(ScanText(text).lines) + ScanText(text).rest == text
  {
    if |text| > 0 {
      SplitRejoins(text[..|text| - 1]);
      EndedWithChar(ScanText(text[..|text| - 1]), text[|text| - 1]);
    }
  }

  predicate OneLine(text: string) {
    '\n' !in text
  }

  lemma {:induction false} SplitLeavesNoNewline(text: string)
    ensures OneLine(ScanText(text).rest) && forall i :: 0 <= i < |ScanText(text).lines| ==> OneLine(ScanText(text).lines[i])
  {
    if |text| > 0 {
      SplitLeavesNoNewline(text[..|text| - 1]);
    }
  }

  /** Splitting takes a text apart at its newlines and nowhere else: put together again it is the text. */
  lemma SplitAtNewlines(text: string)
    ensures Ended(ScanText(text).lines) + ScanText(text).rest == text
    ensures '\n' !in ScanText(text).rest && forall i :: 0 <= i < |ScanText(text).lines| ==> '\n' !in ScanText(text).lines[i]
  {
    SplitRejoins(text);
    SplitLeavesNoNewline(text);
    forall i | 0 <= i < |ScanText(text).lines|
      ensures '\n' !in ScanText(text).lines[i]
    {
      assert OneLine(ScanText(text).lines[i]);
    }
  }

  /** The characters the runtime's `trim` removes. */
  predicate IsSpace(c: char) {
    var n := c as int;
    || 9 <= n <= 13 || n == 0x20 || n == 0xA0 || n == 0x1680 || 0x2000 <= n <= 0x200A
    || n == 0x2028 || n == 0x2029 || n == 0x202F || n == 0x205F || n == 0x3000 || n == 0xFEFF
  }

  predicate Blank(line: string) {
    forall i :: 0 <= i < |line| ==> IsSpace(line[i])
  }

  /** White space and line terminators, as section 22.1.3.32 of ECMA-262 lists them for `trim`. */
  lemma SpacesAre(line: string)
    ensures Blank(line) <==> forall c :: c in line ==>
      c as int in {0x9, 0xA, 0xB, 0xC, 0xD, 0x20, 0xA0, 0x1680, 0x2000, 0x2001, 0x2002, 0x2003, 0x2004, 0x2005, 0x2006,
                   0x2007, 0x2008, 0x2009, 0x200A, 0x2028, 0x2029, 0x202F, 0x205F, 0x3000, 0xFEFF}
  {
    assert Blank(line) <==> forall c :: c in line ==> IsSpace(c);
  }

  function NonBlank(lines: seq<string>): seq<string> {
    if |lines| == 0 then []
    else NonBlank(lines[..|lines| - 1]) + (if Blank(lines[|lines| - 1]) then [] else [lines[|lines| - 1]])
  }

  /** What a chunk makes of the carried partial line: the lines handed on, and the new partial line. */
  function Feed(carried: string, chunk: string, cap: nat): Scan {
    var scan := ScanText(carried + chunk);
    Scan(NonBlank(scan.lines), if |scan.rest| > cap then "" else scan.rest)
  }

  function FeedAll(chunks: seq<string>, cap: nat): Scan {
    if |chunks| == 0 then Scan([], "")
    else
      var before := FeedAll(chunks[..|chunks| - 1], cap);
      var fed := Feed(before.rest, chunks[|chunks| - 1], cap);
      Scan(before.lines + fed.lines, fed.rest)
  }

  function Concat(chunks: seq<string>): string {
    if |chunks| == 0 then "" else Concat(chunks[..|chunks| - 1]) + chunks[|chunks| - 1]
  }

  // -- Splitting and concatenation --------------------------------------------

  lemma {:induction false} ScanAppend(a: string, b: string)
    ensures
      var left, tail := ScanText(a), ScanText(ScanText(a).rest + b);
      ScanText(a + b) == Scan(left.lines + tail.lines, tail.rest)
  {
    var left := ScanText(a);
    if |b| == 0 {
      assert a + b == a && left.rest + b == left.rest;
      RestHasNoLines(a);
    } else {
      var init, c := b[..|b| - 1], b[|b| - 1];
      ScanAppend(a, init);
      assert (a + b)[..|a + b| - 1] == a + init;
      assert (left.rest + b)[..|left.rest + b| - 1] == left.rest + init;
      var tail := ScanText(left.rest + init);
      if c == '\n' {
        assert left.lines + (tail.lines + [tail.rest]) == left.lines + tail.lines + [tail.rest];
      }
    }
  }

  /** A partial line holds no newline, so scanning it again finds nothing to hand on. */
  lemma {:induction false} RestHasNoLines(text: string)
    ensures
      var rest := ScanText(text).rest;
      '\n' !in rest && ScanText(rest) == Scan([], rest)
  {
    if |text| > 0 {
      RestHasNoLines(text[..|text| - 1]);
      var before := ScanText(text[..|text| - 1]).rest;
      var c := text[|text| - 1];
      if c != '\n' {
        assert (before + [c])[..|before + [c]| - 1] == before;
      }
    }
  }

  lemma {:induction false} NonBlankAppend(a: seq<string>, b: seq<string>)
    ensures NonBlank(a + b) == NonBlank(a) + NonBlank(b)
  {
    if |b| == 0 {
      assert a + b == a;
    } else {
      NonBlankAppend(a, b[..|b| - 1]);
      assert (a + b)[..|a + b| - 1] == a + b[..|b| - 1];
    }
  }

  /** Characters put in front of a text lengthen its first line, or its partial line if it has none. */
  lemma {:induction false} ScanPrefixed(front: string, text: string)
    requires '\n' !in front
    ensures
      var plain, longer := ScanText(text), ScanText(front + text);
      && |longer.lines| == |plain.lines|
      && (|plain.lines| == 0 ==> longer.rest == front + plain.rest)
      && (|plain.lines| > 0 ==> longer.rest == plain.rest && longer.lines == [front + plain.lines[0]] + plain.lines[1..])
  {
    if |text| == 0 {
      assert front + text == front;
      PlainFront(front);
    } else {
      var init, c := text[..|text| - 1], text[|text| - 1];
      ScanPrefixed(front, init);
      assert (front + text)[..|front + text| - 1] == front + init;
      var plain, longer := ScanText(init), ScanText(front + init);
      if c == '\n' && |plain.lines| > 0 {
        assert (plain.lines + [plain.rest])[1..] == plain.lines[1..] + [plain.rest];
      } else if c != '\n' && |plain.lines| == 0 {
        assert front + plain.rest + [c] == front + (plain.rest + [c]);
      }
    }
  }

  lemma {:induction false} PlainFront(front: string)
    requires '\n' !in front
    ensures ScanText(front) == Scan([], front)
  {
    if |front| > 0 {
      var init, c := front[..|front| - 1], front[|front| - 1];
      assert c in front && forall x :: x in init ==> x in front;
      PlainFront(init);
      assert ScanText(front) == ScanChar(ScanText(init), c);
      assert init + [c] == front;
    }
  }

  // -- Cutting the stream -----------------------------------------------------

  lemma Assoc<T>(a: seq<T>, b: seq<T>, c: seq<T>)
    ensures a + b + c == a + (b + c)
  {
  }

  lemma EmptyFront(s: string)
    ensures "" + s == s
  {
  }

  lemma FrontAndBack(whole: string, back: string)
    requires |back| <= |whole| && whole[|whole| - |back|..] == back
    ensures whole == whole[..|whole| - |back|] + back
    ensures forall x :: x in whole[..|whole| - |back|] ==> x in whole
    ensures forall x :: x in back ==> x in whole
    ensures whole[..|whole| - |back|] == "" <==> whole == back
  {
    var front := whole[..|whole| - |back|];
    assert whole == front + back;
    if whole == back { assert |front| == 0; }
  }

  predicate AllFit(lines: seq<string>, cap: nat) {
    forall k :: 0 <= k < |lines| ==> Blank(lines[k]) || |lines[k]| <= cap
  }

  lemma AllFitParts(a: seq<string>, b: seq<string>, cap: nat)
    requires AllFit(a + b, cap)
    ensures AllFit(a, cap) && AllFit(b, cap)
  {
    var all := a + b;
    assert forall k :: 0 <= k < |a| ==> a[k] == all[k];
    assert forall k :: 0 <= k < |b| ==> b[k] == all[|a| + k];
  }

  /** Every line with content fits in the carried buffer. */
  predicate LinesFit(text: string, cap: nat) {
    AllFit(ScanText(text).lines, cap)
  }

  /** The buffer is the true partial line, or what is left of one that already outgrew the cap. */
  predicate Carries(text: string, buffer: string, cap: nat) {
    var rest := ScanText(text).rest;
    && |buffer| <= |rest| && rest[|rest| - |buffer|..] == buffer
    && (buffer != rest ==> |rest| > cap)
  }

  lemma NonBlankFirst(first: string, others: seq<string>)
    ensures NonBlank([first] + others) == (if Blank(first) then [] else [first]) + NonBlank(others)
  {
    NonBlankAppend([first], others);
    assert [first][..0] == [];
  }

  /** A first line that lost its front to the cap is skipped just as the whole line is. */
  lemma SameLinesHandedOn(front: string, buffer: string, chunk: string, cap: nat)
    requires '\n' !in front && '\n' !in buffer
    requires front != "" ==> |front + buffer| > cap
    requires LinesFit(front + (buffer + chunk), cap)
    ensures NonBlank(ScanText(front + (buffer + chunk)).lines) == NonBlank(ScanText(buffer + chunk).lines)
  {
    ScanPrefixed(front, buffer + chunk);
    ScanPrefixed(buffer, chunk);
    var plain, longer := ScanText(buffer + chunk), ScanText(front + (buffer + chunk));
    if |plain.lines| > 0 {
      var first := front + plain.lines[0];
      assert longer.lines[0] == first;
      if front == "" {
        assert first == plain.lines[0];
      } else {
        assert |first| > cap;
        assert forall i :: 0 <= i < |plain.lines[0]| ==> plain.lines[0][i] == first[|front| + i];
      }
      NonBlankFirst(first, plain.lines[1..]);
      NonBlankFirst(plain.lines[0], plain.lines[1..]);
      assert plain.lines == [plain.lines[0]] + plain.lines[1..];
    }
  }

  lemma FeedStep(text: string, buffer: string, chunk: string, cap: nat)
    requires Carries(text, buffer, cap) && LinesFit(text + chunk, cap)
    ensures NonBlank(ScanText(text + chunk).lines) == NonBlank(ScanText(text).lines) + Feed(buffer, chunk, cap).lines
  {
    var front := LostFront(text, buffer, chunk, cap);
    FeedLines(text, front, buffer, chunk, cap);
  }

  lemma FeedCarries(text: string, buffer: string, chunk: string, cap: nat)
    requires Carries(text, buffer, cap)
    ensures Carries(text + chunk, Feed(buffer, chunk, cap).rest, cap)
  {
    var front := LostFront(text, buffer, chunk, cap);
    FeedRest(front, buffer, chunk);
  }

  /** What the cap has already taken from the front of the partial line. */
  lemma LostFront(text: string, buffer: string, chunk: string, cap: nat) returns (front: string)
    requires Carries(text, buffer, cap)
    ensures '\n' !in front && '\n' !in buffer
    ensures front != "" ==> |front + buffer| > cap
    ensures ScanText(text + chunk).lines == ScanText(text).lines + ScanText(front + (buffer + chunk)).lines
    ensures ScanText(text + chunk).rest == ScanText(front + (buffer + chunk)).rest
  {
    var rest := ScanText(text).rest;
    front := rest[..|rest| - |buffer|];
    RestHasNoLines(text);
    FrontAndBack(rest, buffer);
    Assoc(front, buffer, chunk);
    ScanAppend(text, chunk);
  }

  lemma FeedLines(text: string, front: string, buffer: string, chunk: string, cap: nat)
    requires '\n' !in front && '\n' !in buffer
    requires front != "" ==> |front + buffer| > cap
    requires ScanText(text + chunk).lines == ScanText(text).lines + ScanText(front + (buffer + chunk)).lines
    requires LinesFit(text + chunk, cap)
    ensures NonBlank(ScanText(text + chunk).lines) == NonBlank(ScanText(text).lines) + Feed(buffer, chunk, cap).lines
  {
    AllFitParts(ScanText(text).lines, ScanText(front + (buffer + chunk)).lines, cap);
    SameLinesHandedOn(front, buffer, chunk, cap);
    NonBlankAppend(ScanText(text).lines, ScanText(front + (buffer + chunk)).lines);
  }

  lemma FeedRest(front: string, buffer: string, chunk: string)
    requires '\n' !in front && '\n' !in buffer
    ensures
      var plain, longer := ScanText(buffer + chunk), ScanText(front + (buffer + chunk));
      || longer.rest == plain.rest
      || (longer.rest == front + plain.rest && |plain.rest| >= |buffer|)
  {
    ScanPrefixed(front, buffer + chunk);
    ScanPrefixed(buffer, chunk);
  }

  lemma LinesFitPrefix(text: string, more: string, cap: nat)
    requires LinesFit(text + more, cap)
    ensures LinesFit(text, cap)
  {
    ScanAppend(text, more);
    AllFitParts(ScanText(text).lines, ScanText(ScanText(text).rest + more).lines, cap);
  }

  lemma {:induction false} CuttingIsInvisible(chunks: seq<string>, cap: nat)
    requires LinesFit(Concat(chunks), cap)
    ensures FeedAll(chunks, cap).lines == NonBlank(ScanText(Concat(chunks)).lines)
    ensures Carries(Concat(chunks), FeedAll(chunks, cap).rest, cap)
  {
    if |chunks| > 0 {
      var init, chunk := chunks[..|chunks| - 1], chunks[|chunks| - 1];
      LinesFitPrefix(Concat(init), chunk, cap);
      CuttingIsInvisible(init, cap);
      FeedStep(Concat(init), FeedAll(init, cap).rest, chunk, cap);
      FeedCarries(Concat(init), FeedAll(init, cap).rest, chunk, cap);
    }
  }

  predicate Around(text: string, before: string, line: string, after: string) {
    text == before + line + "\n" + after
  }

  lemma AroundOneMore(text: string, before: string, line: string, after: string, c: char)
    requires Around(text, before, line, after)
    ensures Around(text + [c], before, line, after + [c])
  {
  }

  /** A text with a given complete line, taken apart around that line. */
  lemma {:induction false} AroundLine(text: string, k: nat) returns (before: string, after: string)
    requires k < |ScanText(text).lines|
    ensures Around(text, before, ScanText(text).lines[k], after)
    ensures ScanText(before).rest == ""
    ensures '\n' !in ScanText(text).lines[k]
  {
    var init, c := text[..|text| - 1], text[|text| - 1];
    var scan := ScanText(init);
    assert ScanText(text) == ScanChar(scan, c);
    assert init + [c] == text;
    if k < |scan.lines| {
      before, after := AroundLine(init, k);
      AroundOneMore(init, before, scan.lines[k], after, c);
      after := after + [c];
    } else {
      RestHasNoLines(init);
      before := StripRest(init);
      after := "";
      LastLine(init, before, scan.rest);
    }
  }

  lemma LastLine(init: string, before: string, rest: string)
    requires init == before + rest
    ensures Around(init + "\n", before, rest, "")
  {
  }

  /** A text up to its last newline. */
  lemma {:induction false} StripRest(text: string) returns (before: string)
    ensures text == before + ScanText(text).rest && ScanText(before).rest == ""
  {
    before := "";
    if |text| > 0 {
      if text[|text| - 1] == '\n' {
        before := text;
      } else {
        before := StripRest(text[..|text| - 1]);
      }
    }
  }

  lemma AppendChunk(chunks: seq<string>, chunk: string, cap: nat) returns (more: seq<string>)
    ensures Concat(more) == Concat(chunks) + chunk
    ensures
      var before := FeedAll(chunks, cap);
      var fed := Feed(before.rest, chunk, cap);
      FeedAll(more, cap) == Scan(before.lines + fed.lines, fed.rest)
  {
    more := chunks + [chunk];
    assert more[..|chunks|] == chunks;
  }

  /** The whole text hands on the line. */
  lemma WholeHandsOn(before: string, line: string, after: string)
    requires ScanText(before).rest == "" && '\n' !in line && !Blank(line)
    ensures NonBlank(ScanText(before + line + "\n" + after).lines)
         == NonBlank(ScanText(before).lines) + ([line] + NonBlank(ScanText(after).lines))
  {
    LineAlone(line);
    ScanAppend(line + "\n", after);
    EmptyFront(after);
    ScanAppend(before, line + "\n" + after);
    EmptyFront(line + "\n" + after);
    Assoc(before, line + "\n", after);
    Assoc(before, line, "\n");
    NonBlankAppend(ScanText(before).lines, [line] + ScanText(after).lines);
    NonBlankFirst(line, ScanText(after).lines);
  }

  lemma LineAlone(line: string)
    requires '\n' !in line
    ensures ScanText(line + "\n") == Scan([line], "")
  {
    PlainFront(line);
    assert (line + "\n")[..|line|] == line;
  }

  lemma NothingFed(cap: nat)
    ensures FeedAll([], cap) == Scan([], "") && Concat([]) == ""
  {
  }

  /** Feeding whole lines to an empty buffer. */
  lemma FeedWholeLines(chunk: string, cap: nat)
    requires ScanText(chunk).rest == ""
    ensures Feed("", chunk, cap) == Scan(NonBlank(ScanText(chunk).lines), "")
  {
    EmptyFront(chunk);
  }

  lemma FeedAnything(chunk: string, cap: nat)
    ensures Feed("", chunk, cap).lines == NonBlank(ScanText(chunk).lines)
  {
    EmptyFront(chunk);
  }

  /** A partial line beyond the cap is dropped at once. */
  lemma FeedLongLine(line: string, cap: nat)
    requires '\n' !in line && |line| > cap
    ensures Feed("", line, cap) == Scan([], "")
  {
    EmptyFront(line);
    PlainFront(line);
  }

  lemma FeedNewline(cap: nat)
    ensures Feed("", "\n", cap) == Scan([], "")
  {
    LineAlone("");
    EmptyFront("\n");
    NonBlankFirst("", []);
  }

  /** Cut just after the line's own characters, the stream has dropped them. */
  lemma CutFeedsLine(before: string, line: string, cap: nat) returns (chunks: seq<string>)
    requires ScanText(before).rest == "" && '\n' !in line && |line| > cap
    ensures FeedAll(chunks, cap).lines == NonBlank(ScanText(before).lines) && FeedAll(chunks, cap).rest == ""
    ensures Concat(chunks) == before + line
  {
    NothingFed(cap);
    FeedWholeLines(before, cap);
    FeedLongLine(line, cap);
    EmptyFront(before);
    chunks := AppendChunk([], before, cap);
    chunks := AppendChunk(chunks, line, cap);
  }

  /** Cut around the line, just before its newline, the stream does not hand it on. */
  lemma CutFeeds(before: string, line: string, after: string, cap: nat) returns (chunks: seq<string>)
    requires ScanText(before).rest == "" && '\n' !in line && |line| > cap
    ensures FeedAll(chunks, cap).lines == NonBlank(ScanText(before).lines) + NonBlank(ScanText(after).lines)
    ensures Concat(chunks) == before + line + "\n" + after
  {
    chunks := CutFeedsLine(before, line, cap);
    FeedNewline(cap);
    chunks := AppendChunk(chunks, "\n", cap);
    FeedAnything(after, cap);
    chunks := AppendChunk(chunks, after, cap);
  }

  /** Cut around an over-long line, the stream loses that line. */
  lemma CuttingLosesALongLine(text: string, k: nat, cap: nat)
    requires k < |ScanText(text).lines|
    requires !Blank(ScanText(text).lines[k]) && |ScanText(text).lines[k]| > cap
    ensures exists chunks :: Concat(chunks) == text && FeedAll(chunks, cap).lines != NonBlank(ScanText(text).lines)
  {
    var before, after := AroundLine(text, k);
    WholeHandsOn(before, ScanText(text).lines[k], after);
    var chunks := CutFeeds(before, ScanText(text).lines[k], after, cap);
    assert |NonBlank(ScanText(text).lines)| == |FeedAll(chunks, cap).lines| + 1;
    assert Concat(chunks) == text;
  }

  /**
   The lines ingested do not depend on how the stream is cut into chunks, exactly when every line
   with content fits in the carried buffer.
   */
  lemma ChunkIndependence(text: string, cap: nat)
    ensures (forall chunks :: Concat(chunks) == text ==> FeedAll(chunks, cap).lines == NonBlank(ScanText(text).lines))
      <==> LinesFit(text, cap)
  {
    if LinesFit(text, cap) {
      forall chunks | Concat(chunks) == text
        ensures FeedAll(chunks, cap).lines == NonBlank(ScanText(text).lines)
      {
        CuttingIsInvisible(chunks, cap);
      }
    } else {
      var k :| 0 <= k < |ScanText(text).lines| && !Blank(ScanText(text).lines[k]) && |ScanText(text).lines[k]| > cap;
      CuttingLosesALongLine(text, k, cap);
    }
  }

  // ---------------------------------------------------------------------------
  // The queue
  // ---------------------------------------------------------------------------

  /** What becomes of a line. */
  datatype Bin<E> = WrongFacility | RateLimited | Malformed | Parsed(event: E)

  /** Where the single drain is: not scheduled, waiting for its turn, or awaiting the handler. */
  datatype Drain = Resting | Scheduled | AwaitingHandler

  /** `whole` is an interleaving of `left` and `right`, each kept in its own order. */
  ghost predicate Merges<E(!new)>(whole: seq<E>, left: seq<E>, right: seq<E>) {
    if |whole| == 0 then left == [] && right == []
    else
      var init, last := whole[..|whole| - 1], whole[|whole| - 1];
      || (|left| > 0 && left[|left| - 1] == last && Merges(init, left[..|left| - 1], right))
      || (|right| > 0 && right[|right| - 1] == last && Merges(init, left, right[..|right| - 1]))
  }

  lemma {:induction false} MergedLength<E(!new)>(whole: seq<E>, left: seq<E>, right: seq<E>)
    requires Merges(whole, left, right)
    ensures |whole| == |left| + |right|
  {
    if |whole| > 0 {
      var init, last := whole[..|whole| - 1], whole[|whole| - 1];
      if |left| > 0 && left[|left| - 1] == last && Merges(init, left[..|left| - 1], right) {
        MergedLength(init, left[..|left| - 1], right);
      } else {
        MergedLength(init, left, right[..|right| - 1]);
      }
    }
  }

  lemma MergesOneMore<E(!new)>(whole: seq<E>, left: seq<E>, right: seq<E>, next: E)
    requires Merges(whole, left, right)
    ensures Merges(whole + [next], left + [next], right)
    ensures Merges(whole + [next], left, right + [next])
  {
    assert (whole + [next])[..|whole|] == whole;
    assert (left + [next])[..|left|] == left;
    assert (right + [next])[..|right|] == right;
  }

  /** A queue whose settled events were delivered or dropped, with the drops of a queue of size zero. */
  ghost predicate LedgerOk<E(!new)>(queue: seq<E>, settled: seq<E>, delivered: seq<E>, dropped: seq<E>,
                                    phantomDrops: nat, maxQueue: nat) {
    && Merges(settled, delivered, dropped)
    && (maxQueue >= 1 ==> phantomDrops == 0 && |queue| <= maxQueue)
    && (maxQueue == 0 ==> |queue| <= 1 && (|settled| + |queue| > 0 <==> phantomDrops > 0))
  }

  lemma ShiftQueue<E>(settled: seq<E>, queue: seq<E>, tail: seq<E>)
    requires |queue| > 0
    ensures settled + [queue[0]] + (queue[1..] + tail) == settled + queue + tail
    ensures settled + [queue[0]] + queue[1..] == settled + queue
  {
    assert queue == [queue[0]] + queue[1..];
  }

  class AuditIngest<E(!new)> {
    const maxQueue: nat
    const parse: string -> Option<E>
    const wrongFacility: string -> bool
    const bucket: TokenBucket

    var queue: seq<E>
    var streamBuffer: string
    var draining: bool
    var drain: Drain
    var handlerSet: bool
    var received: nat
    var parsed: nat
    var malformed: nat
    var droppedQueueFull: nat
    var droppedRateLimited: nat
    var droppedWrongFacility: nat

    /** Lines handed to the parser. */
    ghost var ingested: seq<string>
    /** Events that left the queue, as one sequence and apart. */
    ghost var settled: seq<E>
    ghost var delivered: seq<E>
    ghost var dropped: seq<E>
    /** Drops counted when there was nothing to drop, and partial lines dropped for outgrowing the cap. */
    ghost var phantomDrops: nat
    ghost var overflows: nat

    /** Every event the parser produced, in order. */
    ghost function Accepted(): seq<E>
      reads `settled, `queue
    {
      settled + queue
    }

    ghost predicate QueueOk()
      reads `queue, `settled, `delivered, `dropped, `phantomDrops, `parsed, `droppedQueueFull
    {
      && LedgerOk(queue, settled, delivered, dropped, phantomDrops, maxQueue)
      && parsed == |settled| + |queue|
      && droppedQueueFull == |dropped| + phantomDrops
    }

    /** A waiting event always has a drain on the way. */
    ghost predicate DrainOk()
      reads `draining, `drain, `queue
    {
      && (draining <==> !drain.Resting?)
      && (|queue| > 0 ==> draining)
    }

    /** Every line received is in exactly one bin; a partial line that outgrew the cap is counted malformed too. */
    ghost predicate Counted()
      reads `received, `ingested, `overflows, `droppedWrongFacility, `droppedRateLimited, `malformed, `parsed
    {
      && received == |ingested|
      && received + overflows == droppedWrongFacility + droppedRateLimited + malformed + parsed
    }

    ghost predicate Valid()
      reads this, bucket
    {
      QueueOk() && DrainOk() && Counted() && bucket.Valid()
    }

    constructor (maxQueue: nat, parse: string -> Option<E>, wrongFacility: string -> bool, bucket: TokenBucket)
      requires bucket.Valid()
      ensures Valid() && ingested == [] && Accepted() == [] && streamBuffer == "" && !handlerSet
      ensures this.maxQueue == maxQueue && this.parse == parse && this.wrongFacility == wrongFacility
      ensures this.bucket == bucket
    {
      this.maxQueue, this.parse, this.wrongFacility, this.bucket := maxQueue, parse, wrongFacility, bucket;
      queue, streamBuffer, draining, drain, handlerSet := [], "", false, Resting, false;
      received, parsed, malformed := 0, 0, 0;
      droppedQueueFull, droppedRateLimited, droppedWrongFacility := 0, 0, 0;
      ingested, settled, delivered, dropped := [], [], [], [];
      phantomDrops, overflows := 0, 0;
    }

    /**
     Conservation: every parsed event is delivered, counted as dropped, or still queued. A queue of
     size zero breaks this with its very first event, and any other queue never does.
     */
    lemma EveryEventIsAccountedFor()
      requires Valid()
      ensures parsed == |delivered| + droppedQueueFull + |queue| <==> maxQueue >= 1 || parsed == 0
    {
      MergedLength(settled, delivered, dropped);
    }

    method OnEvent()
      modifies `handlerSet
      ensures handlerSet
    {
      handlerSet := true;
    }

    method ScheduleDrain()
      modifies `draining, `drain
      ensures draining
      ensures drain == if old(draining) then old(drain) else Scheduled
    {
      if draining {
        return;
      }
      draining := true;
      drain := Scheduled;
    }

    /** Makes room in a full queue by dropping its oldest event. */
    method DropOldest()
      requires LedgerOk(queue, settled, delivered, dropped, phantomDrops, maxQueue) && |queue| >= maxQueue
      modifies `queue, `settled, `dropped, `phantomDrops, `droppedQueueFull
      ensures Merges(settled, delivered, dropped) && |queue| < Max(1, maxQueue)
      ensures phantomDrops == old(phantomDrops) + (if |old(queue)| == 0 then 1 else 0)
      ensures maxQueue >= 1 ==> phantomDrops == 0
      ensures Accepted() == old(Accepted())
      ensures droppedQueueFull == old(droppedQueueFull) + 1
      ensures |dropped| + phantomDrops == |old(dropped)| + old(phantomDrops) + 1
      ensures queue == if |old(queue)| > 0 then old(queue)[1..] else []
    {
      if |queue| > 0 {
        MergesOneMore(settled, delivered, dropped, queue[0]);
        ShiftQueue(settled, queue, []);
        settled := settled + [queue[0]];
        dropped := dropped + [queue[0]];
        queue := queue[1..];
      } else {
        phantomDrops := phantomDrops + 1;
      }
      droppedQueueFull := droppedQueueFull + 1;
    }

    /** Accepts an event, dropping the oldest one of a full queue. */
    method Enqueue(event: E)
      requires QueueOk() && DrainOk()
      modifies `queue, `settled, `dropped, `phantomDrops, `droppedQueueFull, `draining, `drain, `parsed
      ensures QueueOk() && DrainOk()
      ensures parsed == old(parsed) + 1 && Accepted() == old(Accepted()) + [event]
      ensures droppedQueueFull == old(droppedQueueFull) + (if |old(queue)| >= maxQueue then 1 else 0)
      ensures queue == (if |old(queue)| >= maxQueue && |old(queue)| > 0 then old(queue)[1..] else old(queue)) + [event]
    {
      parsed := parsed + 1;
      if |queue| >= maxQueue {
        DropOldest();
      }
      assert settled + (queue + [event]) == settled + queue + [event];
      queue := queue + [event];
      ScheduleDrain();
    }

    /** What a line is worth, given the calls the bucket has seen: dropped, limited, malformed or an event. */
    ghost function Screened(line: string, now: int, calls: seq<Call>): Bin<E> {
      if wrongFacility(line) then WrongFacility
      else if !Grants(After(calls, bucket.start, bucket.rate), Call(now, 1.0), bucket.rate) then RateLimited
      else if parse(line).None? then Malformed
      else Parsed(parse(line).value)
    }

    method Screen(line: string, now: int) returns (event: Option<E>)
      requires bucket.Valid()
      modifies bucket
      modifies `received, `ingested, `droppedWrongFacility, `droppedRateLimited, `malformed
      ensures bucket.Valid() && ingested == old(ingested) + [line] && received == old(received) + 1
      ensures bucket.calls == old(bucket.calls) + if wrongFacility(line) then [] else [Call(now, 1.0)]
      ensures
        var bin := Screened(line, now, old(bucket.calls));
        && event == (if bin.Parsed? then Some(bin.event) else None)
        && droppedWrongFacility == old(droppedWrongFacility) + (if bin.WrongFacility? then 1 else 0)
        && droppedRateLimited == old(droppedRateLimited) + (if bin.RateLimited? then 1 else 0)
        && malformed == old(malformed) + (if bin.Malformed? then 1 else 0)
    {
      received := received + 1;
      ingested := ingested + [line];
      if wrongFacility(line) {
        droppedWrongFacility := droppedWrongFacility + 1;
        return None;
      }
      var granted := bucket.TryConsume(1.0, now);
      if !granted {
        droppedRateLimited := droppedRateLimited + 1;
        return None;
      }
      event := parse(line);
      if event.None? {
        malformed := malformed + 1;
      }
    }

    /** Counts a line into exactly one bin; a parsed one joins the queue. */
    method IngestLine(line: string, now: int)
      requires Valid()
      modifies `queue, `settled, `dropped, `phantomDrops, `droppedQueueFull, `draining, `drain, `parsed
      modifies `received, `ingested, `droppedWrongFacility, `droppedRateLimited, `malformed
      modifies bucket
      ensures Valid() && ingested == old(ingested) + [line]
      ensures
        var bin := Screened(line, now, old(bucket.calls));
        Accepted() == old(Accepted()) + if bin.Parsed? then [bin.event] else []
    {
      var event := Screen(line, now);
      if event.Some? {
        Enqueue(event.value);
      }
    }

    method IngestLines(lines: seq<string>, now: int)
      requires Valid()
      modifies `queue, `settled, `dropped, `phantomDrops, `droppedQueueFull, `draining, `drain, `parsed
      modifies `received, `ingested, `droppedWrongFacility, `droppedRateLimited, `malformed
      modifies bucket
      ensures Valid() && ingested == old(ingested) + NonBlank(lines) && overflows == old(overflows)
    {
      for i := 0 to |lines|
        invariant Valid() && ingested == old(ingested) + NonBlank(lines[..i]) && overflows == old(overflows)
      {
        assert lines[..i + 1][..i] == lines[..i];
        if !Blank(lines[i]) {
          Assoc(old(ingested), NonBlank(lines[..i]), [lines[i]]);
          IngestLine(lines[i], now);
        }
      }
      assert lines[..|lines|] == lines;
    }

    /** Adds a chunk of the stream: its complete lines are ingested, its partial line is carried on. */
    method IngestChunk(chunk: string, now: int)
      requires Valid()
      modifies this, bucket
      ensures Valid() && delivered == old(delivered)
      ensures
        var fed := Feed(old(streamBuffer), chunk, PARTIAL_LINE_CAP);
        ingested == old(ingested) + fed.lines && streamBuffer == fed.rest
      ensures overflows == old(overflows) + if |ScanText(old(streamBuffer) + chunk).rest| > PARTIAL_LINE_CAP then 1 else 0
    {
      var scan := ScanText(streamBuffer + chunk);
      streamBuffer := scan.rest;
      if |streamBuffer| > PARTIAL_LINE_CAP {
        malformed := malformed + 1;
        overflows := overflows + 1;
        streamBuffer := "";
      }
      IngestLines(scan.lines, now);
    }

    /** Hands the oldest event to the consumer. */
    method DeliverOne()
      requires QueueOk() && |queue| > 0
      modifies `queue, `settled, `delivered
      ensures QueueOk() && Accepted() == old(Accepted())
      ensures delivered == old(delivered) + [old(queue)[0]] && queue == old(queue)[1..]
    {
      MergesOneMore(settled, delivered, dropped, queue[0]);
      ShiftQueue(settled, queue, []);
      settled := settled + [queue[0]];
      delivered := delivered + [queue[0]];
      queue := queue[1..];
    }

    /** The drain loop up to its next await, or to its end. A listener that throws ends it. */
    method DeliverUntilAwait(listenerThrows: E -> bool) returns (awaiting: bool)
      requires QueueOk()
      modifies `queue, `settled, `delivered
      ensures QueueOk() && Accepted() == old(Accepted())
      ensures delivered + queue == old(delivered + queue)
      ensures awaiting <==> |old(queue)| > 0 && handlerSet && !listenerThrows(old(queue)[0])
      ensures
        if awaiting || (|old(queue)| > 0 && listenerThrows(old(queue)[0])) then queue == old(queue)[1..]
        else (|queue| > 0 ==> exists i :: 0 < i < |old(queue)| && listenerThrows(old(queue)[i]) && queue == old(queue)[i + 1..])
    {
      awaiting := false;
      ghost var n := 0;
      while |queue| > 0
        invariant n <= |old(queue)| && queue == old(queue)[n..]
        invariant QueueOk() && Accepted() == old(Accepted())
        invariant delivered + queue == old(delivered + queue)
        invariant n > 0 ==> !handlerSet && !listenerThrows(old(queue)[0])
        decreases |queue|
      {
        var event := queue[0];
        n := n + 1;
        ShiftQueue(delivered, queue, []);
        DeliverOne();
        if listenerThrows(event) {
          return;
        }
        if handlerSet {
          return true;
        }
      }
    }

    /**
     The drain from its scheduled start, or from the settled handler, up to its next await or its end.
     A listener may throw, which ends it; a handler that throws does not.
     */
    method RunDrain(listenerThrows: E -> bool)
      requires Valid() && !drain.Resting?
      modifies `queue, `settled, `delivered, `draining, `drain
      ensures Valid() && Accepted() == old(Accepted())
      ensures delivered + queue == old(delivered + queue)
      ensures |old(queue)| > 0 ==> |queue| < |old(queue)|
      ensures drain == AwaitingHandler <==> |old(queue)| > 0 && handlerSet && !listenerThrows(old(queue)[0])
      ensures !handlerSet && (forall i :: 0 <= i < |old(queue)| ==> !listenerThrows(old(queue)[i]))
          ==> queue == [] && drain == Resting
    {
      var awaiting := DeliverUntilAwait(listenerThrows);
      if awaiting {
        drain := AwaitingHandler;
        return;
      }
      draining := false;
      drain := Resting;
      if |queue| > 0 {
        ScheduleDrain();
      }
    }
  }
}
