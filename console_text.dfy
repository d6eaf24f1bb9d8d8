/** The console line splitter of the GUI server (ConsoleTextBase in
    AmatsukazeGUI/Server/Misc.cs). It receives the console output of a child process as
    chunks of bytes, buffers the bytes of the current line, and reports each finished
    line to one of two handlers: "add a line", or "replace the last line" when the
    previous line was ended by a carriage return (how progress bars redraw themselves).

    The byte-to-text decoding (Encoding.Default.GetString) is the identity here: a
    reported line is the byte sequence itself. */
module ConsoleText {
  import opened Wrappers

  newtype byte = x: int | 0 <= x < 256

  const LF: byte := 10
  const CR: byte := 13

  predicate IsTerminator(b: byte)
  {
    b == LF || b == CR
  }

  predicate NoTerminator(bytes: seq<byte>)
  {
    forall i :: 0 <= i < |bytes| ==> !IsTerminator(bytes[i])
  }

  /** One handler call: OnAddLine(text) or OnReplaceLine(text). */
  datatype LineEvent = AddLine(text: seq<byte>) | ReplaceLine(text: seq<byte>)

  /** The splitter's two fields: the bytes of the unfinished line, and whether the last
      terminator seen was a carriage return. */
  datatype Splitter = Splitter(rawtext: seq<byte>, isCR: bool)

  /** A splitter state after some bytes, with the handler calls they caused. */
  datatype Fed = Fed(state: Splitter, events: seq<LineEvent>)

  /** The event that flushes `line`, given whether the previous terminator was `\r`. */
  function LineEnded(line: seq<byte>, afterCR: bool): LineEvent
  {
    if afterCR then ReplaceLine(line) else AddLine(line)
  }

  /** One round of the AddBytes loop. */
  function Step(s: Splitter, b: byte): (r: Fed)
    ensures |r.events| <= 1 && (!IsTerminator(b) ==> r.events == [])
    ensures (if r.events == [] then [] else r.events[0].text) + r.state.rawtext
      == s.rawtext + (if IsTerminator(b) then [] else [b])
  {
    if IsTerminator(b) then
      var events := if |s.rawtext| > 0 then [LineEnded(s.rawtext, s.isCR)] else [];
      Fed(Splitter([], b == CR), events)
    else
      Fed(Splitter(s.rawtext + [b], s.isCR), [])
  }

  /** The state and handler calls after the loop has consumed `bytes` in order. */
  function Feed(s: Splitter, bytes: seq<byte>): (r: Fed)
    ensures |r.events| <= |bytes|
    decreases |bytes|
  {
    if bytes == [] then Fed(s, [])
    else
      var before := Feed(s, bytes[..|bytes| - 1]);
      var last := Step(before.state, bytes[|bytes| - 1]);
      Fed(last.state, before.events + last.events)
  }

  // ---------------------------------------------------------------------------
  // A reference description by whole lines

  /** The index of the first terminator, if any. */
  function FirstTerminator(bytes: seq<byte>): (r: Option<nat>)
    ensures r.Some? ==> r.value < |bytes| && IsTerminator(bytes[r.value]) && NoTerminator(bytes[..r.value])
    ensures r.None? ==> NoTerminator(bytes)
    decreases |bytes|
  {
    if bytes == [] then None
    else if IsTerminator(bytes[0]) then Some(0)
    else
      var r := FirstTerminator(bytes[1..]);
      if r.Some? then
        assert bytes[..r.value + 1] == [bytes[0]] + bytes[1..][..r.value];
        Some(r.value + 1)
      else None
  }

  /** The same splitting described line by line: the pending bytes plus everything up to
      the first terminator form a line, reported (unless empty) as a replacement exactly
      when the terminator before it was `\r`; splitting resumes after that terminator. */
  function Lines(s: Splitter, bytes: seq<byte>): Fed
    decreases |bytes|
  {
    match FirstTerminator(bytes)
    case None => Fed(Splitter(s.rawtext + bytes, s.isCR), [])
    case Some(j) =>
      var line := s.rawtext + bytes[..j];
      var events := if |line| > 0 then [LineEnded(line, s.isCR)] else [];
      var rest := Lines(Splitter([], bytes[j] == CR), bytes[j + 1..]);
      Fed(rest.state, events + rest.events)
  }

  /** The bytes that are not terminators, in order. */
  function TextBytes(bytes: seq<byte>): seq<byte>
    decreases |bytes|
  {
    if bytes == [] then []
    else
      var b := bytes[|bytes| - 1];
      TextBytes(bytes[..|bytes| - 1]) + (if IsTerminator(b) then [] else [b])
  }

  /** The concatenated texts of a list of handler calls. */
  function Texts(events: seq<LineEvent>): seq<byte>
    decreases |events|
  {
    if events == [] then [] else events[0].text + Texts(events[1..])
  }

  /** The index of the last terminator, if any. */
  function LastTerminator(bytes: seq<byte>): (r: Option<nat>)
    ensures r.Some? ==> r.value < |bytes| && IsTerminator(bytes[r.value]) && NoTerminator(bytes[r.value + 1..])
    ensures r.None? ==> NoTerminator(bytes)
    decreases |bytes|
  {
    if bytes == [] then None
    else if IsTerminator(bytes[|bytes| - 1]) then Some(|bytes| - 1)
    else
      var init := bytes[..|bytes| - 1];
      var r := LastTerminator(init);
      assert forall k :: 0 <= k < |init| ==> bytes[k] == init[k];
      if r.Some? then
        assert forall k :: r.value + 1 <= k < |bytes| ==> !IsTerminator(bytes[k]) by {
          forall k | r.value + 1 <= k < |bytes| ensures !IsTerminator(bytes[k]) {
            if k < |init| {
              assert init[r.value + 1..][k - r.value - 1] == init[k];
            }
          }
        }
        r
      else
        None
  }

  // ---------------------------------------------------------------------------
  // Properties of the splitter

  /** Feeding two chunks one after the other is feeding their concatenation: how the
      output is cut into AddBytes calls does not change the lines reported. */
  lemma {:induction false} FeedChunks(s: Splitter, a: seq<byte>, b: seq<byte>)
    ensures var first := Feed(s, a);
      var second := Feed(first.state, b);
      Feed(s, a + b) == Fed(second.state, first.events + second.events)
    decreases |b|
  {
    if b != [] {
      var b' := b[..|b| - 1];
      assert (a + b)[..|a + b| - 1] == a + b';
      assert (a + b)[|a + b| - 1] == b[|b| - 1];
      FeedChunks(s, a, b');
    } else {
      assert a + b == a;
    }
  }

  /** Bytes without a terminator are appended to the pending line and report nothing. */
  lemma {:induction false} FeedText(s: Splitter, bytes: seq<byte>)
    requires NoTerminator(bytes)
    ensures Feed(s, bytes) == Fed(Splitter(s.rawtext + bytes, s.isCR), [])
    decreases |bytes|
  {
    if bytes != [] {
      var init := bytes[..|bytes| - 1];
      FeedText(s, init);
      assert s.rawtext + init + [bytes[|bytes| - 1]] == s.rawtext + bytes;
    } else {
      assert s.rawtext + bytes == s.rawtext;
    }
  }

  /** The byte-at-a-time loop and the line-at-a-time description agree on every input. */
  lemma {:induction false} FeedMatchesLines(s: Splitter, bytes: seq<byte>)
    ensures Feed(s, bytes) == Lines(s, bytes)
    decreases |bytes|
  {
    match FirstTerminator(bytes)
    case None =>
      FeedText(s, bytes);
    case Some(j) =>
      var text, rest := bytes[..j], bytes[j + 1..];
      assert bytes == text + [bytes[j]] + rest;
      FeedChunks(s, text + [bytes[j]], rest);
      FeedChunks(s, text, [bytes[j]]);
      FeedText(s, text);
      var mid := Feed(s, text);
      assert Feed(mid.state, [bytes[j]]) == Step(mid.state, bytes[j]);
      FeedMatchesLines(Splitter([], bytes[j] == CR), rest);
  }

  lemma {:induction false} TextsAppend(a: seq<LineEvent>, b: seq<LineEvent>)
    ensures Texts(a + b) == Texts(a) + Texts(b)
    decreases |a|
  {
    if a != [] {
      assert (a + b)[1..] == a[1..] + b;
      TextsAppend(a[1..], b);
    } else {
      assert a + b == b;
    }
  }

  /** Nothing is lost and nothing is invented: the reported lines followed by the pending
      line are the bytes that were pending before followed by every non-terminator byte
      fed, in order. */
  lemma {:induction false} FeedConservesText(s: Splitter, bytes: seq<byte>)
    ensures var fed := Feed(s, bytes);
      Texts(fed.events) + fed.state.rawtext == s.rawtext + TextBytes(bytes)
    decreases |bytes|
  {
    if bytes != [] {
      var init := bytes[..|bytes| - 1];
      FeedConservesText(s, init);
      var b := bytes[|bytes| - 1];
      var before := Feed(s, init);
      var last := Step(before.state, b);
      assert Feed(s, bytes) == Fed(last.state, before.events + last.events);
      TextsAppend(before.events, last.events);
      assert Texts(before.events) + before.state.rawtext == s.rawtext + TextBytes(init);
      if IsTerminator(b) {
        assert TextBytes(bytes) == TextBytes(init);
        if |before.state.rawtext| > 0 {
          assert Texts(last.events) == before.state.rawtext + Texts([]);
        }
      } else {
        assert TextBytes(bytes) == TextBytes(init) + [b];
        assert before.events + last.events == before.events;
        assert Texts(before.events) + last.state.rawtext
          == (Texts(before.events) + before.state.rawtext) + [b];
      }
    }
  }

  /** Starting from a pending line without terminators, no reported line is empty or
      holds a terminator, and the pending line stays free of terminators. */
  lemma {:induction false} FeedLinesWellFormed(s: Splitter, bytes: seq<byte>)
    requires NoTerminator(s.rawtext)
    ensures var fed := Feed(s, bytes);
      && NoTerminator(fed.state.rawtext)
      && forall k :: 0 <= k < |fed.events| ==> |fed.events[k].text| > 0 && NoTerminator(fed.events[k].text)
    decreases |bytes|
  {
    if bytes != [] {
      var init := bytes[..|bytes| - 1];
      FeedLinesWellFormed(s, init);
      var before := Feed(s, init);
      var last := Step(before.state, bytes[|bytes| - 1]);
      assert Feed(s, bytes) == Fed(last.state, before.events + last.events);
    }
  }

  /** After the bytes, the pending line is what followed the last terminator and `isCR`
      tells whether that terminator was `\r`; without a terminator the bytes are appended
      and `isCR` is unchanged. */
  lemma {:induction false} FeedFinalState(s: Splitter, bytes: seq<byte>)
    ensures var st := Feed(s, bytes).state;
      match LastTerminator(bytes)
      case None => st == Splitter(s.rawtext + bytes, s.isCR)
      case Some(j) => st == Splitter(bytes[j + 1..], bytes[j] == CR)
    decreases |bytes|
  {
    if bytes != [] {
      var init := bytes[..|bytes| - 1];
      var b := bytes[|bytes| - 1];
      FeedFinalState(s, init);
      assert bytes == init + [b];
      if !IsTerminator(b) {
        match LastTerminator(init)
        case None =>
          assert s.rawtext + init + [b] == s.rawtext + bytes;
        case Some(j) =>
          assert bytes[j + 1..] == init[j + 1..] + [b];
      }
    }
  }

  /** A terminator flushes a non-empty pending line as exactly one handler call, chosen by
      the previous terminator, and an empty one silently; either way it records whether
      it was `\r`. */
  lemma TerminatorFlushes(s: Splitter, b: byte)
    requires IsTerminator(b)
    ensures Feed(s, [b]).state == Splitter([], b == CR)
    ensures |s.rawtext| > 0 ==> Feed(s, [b]).events == [LineEnded(s.rawtext, s.isCR)]
    ensures |s.rawtext| == 0 ==> Feed(s, [b]).events == []
  {
  }

  /** A progress line ended by `\r` is replaced by the next line. */
  lemma ProgressLineIsReplaced()
    ensures Feed(Splitter([], false), [49, CR, 50, CR, 51, LF]).events
      == [AddLine([49]), ReplaceLine([50]), ReplaceLine([51])]
  {
    var none: seq<byte> := [];
    var a: seq<byte> := [49, CR, 50, CR, 51, LF];
    FeedMatchesLines(Splitter([], false), a);
    assert FirstTerminator(a) == Some(1) && none + a[..1] == [49] && a[2..] == [50, CR, 51, LF];
    assert FirstTerminator(a[2..]) == Some(1) && none + a[2..][..1] == [50] && a[2..][2..] == [51, LF];
    assert FirstTerminator(a[2..][2..]) == Some(1) && none + a[2..][2..][..1] == [51] && a[2..][2..][2..] == none;
    assert Lines(Splitter([], false), a[2..][2..][2..]).events == [];
    assert Lines(Splitter([], true), a[2..][2..]).events == [ReplaceLine([51])] + [];
    assert Lines(Splitter([], true), a[2..]).events == [ReplaceLine([50])] + [ReplaceLine([51])];
    assert Lines(Splitter([], false), a).events == [AddLine([49])] + [ReplaceLine([50]), ReplaceLine([51])];
  }

  /** `\r\n` ends one line: the empty line between the two terminators is not reported. */
  lemma CrLfEndsOneLine()
    ensures Feed(Splitter([], false), [49, CR, LF, 50, LF]).events
      == [AddLine([49]), AddLine([50])]
  {
    var none: seq<byte> := [];
    var b: seq<byte> := [49, CR, LF, 50, LF];
    FeedMatchesLines(Splitter([], false), b);
    assert FirstTerminator(b) == Some(1) && none + b[..1] == [49] && b[2..] == [LF, 50, LF];
    assert FirstTerminator(b[2..]) == Some(0) && none + b[2..][..0] == [] && b[2..][1..] == [50, LF];
    assert FirstTerminator(b[2..][1..]) == Some(1) && none + b[2..][1..][..1] == [50] && b[2..][1..][2..] == none;
    assert Lines(Splitter([], false), b[2..][1..][2..]).events == [];
    assert Lines(Splitter([], false), b[2..][1..]).events == [AddLine([50])] + [];
    assert Lines(Splitter([], true), b[2..]).events == [] + [AddLine([50])];
    assert Lines(Splitter([], false), b).events == [AddLine([49])] + [AddLine([50])];
  }

  // ---------------------------------------------------------------------------
  // The range of the buffer AddBytes consumes

  /** The bytes AddBytes(buf, offset, count) consumes as written: buf[0..count), the
      offset is never used; a count beyond the buffer stops at its end, where the
      source throws. */
  function ScannedAsWritten(buf: seq<byte>, offset: int, count: int): (r: seq<byte>)
    ensures |r| == if count < 0 then 0 else if count > |buf| then |buf| else count
    ensures r == buf[..|r|]
  {
    if count < 0 then [] else if count > |buf| then buf else buf[..count]
  }

  /** The bytes the (buffer, offset, count) convention designates: buf[offset..offset+count). */
  function ScannedIntended(buf: seq<byte>, offset: nat, count: nat): (r: seq<byte>)
    requires offset + count <= |buf|
    ensures |r| == count
    ensures forall k :: 0 <= k < count ==> r[k] == buf[offset + k]
  {
    buf[offset..offset + count]
  }

  /** With a nonzero offset the two differ: the terminator at buf[1] is never seen and
      buf[0] joins the pending line instead. */
  lemma OffsetIsIgnored()
    ensures Feed(Splitter([66], false), ScannedAsWritten([65, LF], 1, 1))
      == Fed(Splitter([66, 65], false), [])
    ensures Feed(Splitter([66], false), ScannedIntended([65, LF], 1, 1))
      == Fed(Splitter([], false), [AddLine([66])])
  {
  }

  // ---------------------------------------------------------------------------
  // The object

  class ConsoleTextBase {
    /** The bytes of the unfinished line (List<byte> rawtext). */
    var rawtext: seq<byte>
    /** Whether the last terminator was a carriage return. */
    var isCR: bool
    /** The OnAddLine / OnReplaceLine calls made so far, in order. */
    var emitted: seq<LineEvent>

    ghost predicate Valid()
      reads this
    {
      NoTerminator(rawtext)
    }

    function State(): Splitter
      reads this
    {
      Splitter(rawtext, isCR)
    }

    constructor ()
      ensures Valid()
      ensures rawtext == [] && !isCR && emitted == []
    {
      rawtext := [];
      isCR := false;
      emitted := [];
    }

    /** The handler for a finished line; the source leaves it to subclasses. */
    method OnAddLine(text: seq<byte>)
      modifies this`emitted
      ensures emitted == old(emitted) + [AddLine(text)]
    {
      emitted := emitted + [AddLine(text)];
    }

    /** The handler for a line that replaces the previous one; the source leaves it to subclasses. */
    method OnReplaceLine(text: seq<byte>)
      modifies this`emitted
      ensures emitted == old(emitted) + [ReplaceLine(text)]
    {
      emitted := emitted + [ReplaceLine(text)];
    }

    /** Clear: drops the unfinished line and forgets the last terminator. */
    method Clear()
      modifies this`rawtext, this`isCR
      ensures Valid()
      ensures rawtext == [] && !isCR
    {
      rawtext := [];
      isCR := false;
    }

    /** One round of the loop: consume byte `b`. */
    method Consume(b: byte)
      requires Valid()
      modifies this
      ensures Valid()
      ensures State() == Step(old(State()), b).state
      ensures emitted == old(emitted) + Step(old(State()), b).events
    {
      if b == LF || b == CR {
        if |rawtext| > 0 {
          var text := rawtext;
          if isCR {
            OnReplaceLine(text);
          } else {
            OnAddLine(text);
          }
          rawtext := [];
        }
        isCR := b == CR;
      } else {
        rawtext := rawtext + [b];
      }
    }

    /** AddBytes as written: consumes buf[0..count) and ignores `offset`. When `count`
        exceeds the buffer, the source consumes the whole buffer and then throws
        IndexOutOfRangeException; `overrun` tells that this happened. */
    method AddBytes(buf: array<byte>, offset: int, count: int) returns (overrun: bool)
      requires Valid()
      modifies this
      ensures Valid()
      ensures overrun <==> count > buf.Length
      ensures var fed := Feed(old(State()), ScannedAsWritten(buf[..], offset, count));
        State() == fed.state && emitted == old(emitted) + fed.events
      ensures forall k :: |old(emitted)| <= k < |emitted| ==>
        |emitted[k].text| > 0 && NoTerminator(emitted[k].text)
    {
      FeedLinesWellFormed(State(), ScannedAsWritten(buf[..], offset, count));
      var i := 0;
      while i < count
        invariant 0 <= i <= buf.Length && (count >= 0 ==> i <= count) && (count < 0 ==> i == 0)
        invariant var fed := Feed(old(State()), buf[..i]);
          State() == fed.state && emitted == old(emitted) + fed.events
        invariant Valid()
      {
        if i == buf.Length {
          assert ScannedAsWritten(buf[..], offset, count) == buf[..i];
          return true;
        }
        Consume(buf[i]);
        assert buf[..i + 1][..i] == buf[..i];
        i := i + 1;
      }
      assert ScannedAsWritten(buf[..], offset, count) == buf[..i];
      return false;
    }

    /** AddBytes as the (buffer, offset, count) convention intends: consumes
        buf[offset..offset+count). */
    method AddBytesAt(buf: array<byte>, offset: nat, count: nat)
      requires Valid()
      requires offset + count <= buf.Length
      modifies this
      ensures Valid()
      ensures var fed := Feed(old(State()), ScannedIntended(buf[..], offset, count));
        State() == fed.state && emitted == old(emitted) + fed.events
      ensures forall k :: |old(emitted)| <= k < |emitted| ==>
        |emitted[k].text| > 0 && NoTerminator(emitted[k].text)
    {
      ghost var window := ScannedIntended(buf[..], offset, count);
      assert window == buf[offset..offset + count];
      FeedLinesWellFormed(State(), window);
      var i := 0;
      while i < count
        invariant 0 <= i <= count
        invariant var fed := Feed(old(State()), buf[offset..offset + i]);
          State() == fed.state && emitted == old(emitted) + fed.events
        invariant Valid()
      {
        Consume(buf[offset + i]);
        assert buf[offset..offset + i + 1][..i] == buf[offset..offset + i];
        i := i + 1;
      }
      assert emitted == old(emitted) + Feed(old(State()), window).events;
    }
  }
}
