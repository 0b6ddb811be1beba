/**
 * The hello-message barrier of a NETCONF session under negotiation.
 *
 * A frame may begin with an additional header carrying session metadata
 * ("[user;address;transport;...]" followed by a newline). The decoder finds
 * where that header ends, splits it off, hands the rest to an XML parser and
 * then enforces that the first message is a <hello> (capabilities exchange,
 * section 8.1 of RFC 6241): exactly one hello is passed on, later non-hello
 * messages are held back in arrival order, anything else is refused.
 *
 * The byte-level helpers are written as the imperative loops they are, each
 * proved equal to a recursive reference function whose properties are lemmas.
 */
module HelloDecoder {
  import opened Wrappers

  /** A Java `byte`: a signed 8-bit value. Only equality of bytes matters here. */
  newtype Byte = b: int | -128 <= b < 128

  const LF: Byte := 10     // '\n'
  const CR: Byte := 13     // '\r'
  const OPEN: Byte := 91   // '['
  const CLOSE: Byte := 93  // ']'

  /** The exceptions that decode and its helpers can throw. */
  datatype Exception =
    | IllegalArgument   // findByteSequence: the sequence is longer than the array
    | IndexOutOfBounds  // an array read past its end
    | IllegalState      // a hello, or a non-hello, out of turn
    | XmlParse          // the body is not a well-formed XML document

  /** The byte sequences that close the additional header, tried in this order. */
  const POSSIBLE_ENDS: seq<seq<Byte>> := [[CLOSE, LF], [CLOSE, CR, LF]]

  /** The byte sequences that open an additional header, tried in this order. */
  const POSSIBLE_STARTS: seq<seq<Byte>> := [[OPEN], [CR, LF, OPEN], [LF, OPEN]]

  // ------------------------------------------------------------------
  // findByteSequence

  /** `sequence` occurs in `bytes` at offset `k`. */
  predicate OccursAt(bytes: seq<Byte>, sequence: seq<Byte>, k: int)
  {
    0 <= k && k + |sequence| <= |bytes| && bytes[k..k + |sequence|] == sequence
  }

  /**
   * The search loop of findByteSequence, resumed at position `i` with the
   * first `index` bytes of `sequence` matched just before `i`. A mismatch
   * resets `index` to 0 without looking at the current byte again.
   */
  function Scan(bytes: seq<Byte>, sequence: seq<Byte>, i: nat, index: nat): (r: Result<int, Exception>)
    requires index <= i <= |bytes|
    requires index < |sequence| || index == 0
    requires bytes[i - index..i] == sequence[..index]
    ensures r.Failure? <==> |sequence| == 0 && i < |bytes|
    ensures r.Failure? ==> r.error == IndexOutOfBounds
    ensures r.Success? ==> r.value == -1 || OccursAt(bytes, sequence, r.value)
    decreases |bytes| - i
  {
    if i == |bytes| then Success(-1)
    else if index >= |sequence| then Failure(IndexOutOfBounds)
    else if bytes[i] == sequence[index] then
      assert bytes[i - index..i + 1] == bytes[i - index..i] + [bytes[i]];
      assert sequence[..index + 1] == sequence[..index] + [sequence[index]];
      if index + 1 == |sequence| then Success(i - index)
      else Scan(bytes, sequence, i + 1, index + 1)
    else Scan(bytes, sequence, i + 1, 0)
  }

  /**
   * What findByteSequence returns: an exception when `sequence` is longer
   * than `bytes`, 0 or -1 by plain comparison when they are equally long,
   * otherwise the outcome of the search loop. A non-negative result is always
   * an occurrence; -1 does NOT mean that there is none (see FindMissesOverlap).
   */
  function Find(bytes: seq<Byte>, sequence: seq<Byte>): (r: Result<int, Exception>)
    ensures r.Failure? <==> |bytes| < |sequence| || 0 == |sequence| < |bytes|
    ensures r == Failure(IllegalArgument) <==> |bytes| < |sequence|
    ensures r.Failure? && |sequence| <= |bytes| ==> r.error == IndexOutOfBounds
    ensures |bytes| == |sequence| ==> r.Success? && (r.value == 0 <==> bytes == sequence) && (r.value == 0 || r.value == -1)
    ensures r.Success? ==> r.value == -1 || OccursAt(bytes, sequence, r.value)
  {
    if |bytes| < |sequence| then Failure(IllegalArgument)
    else if |bytes| == |sequence| then (if bytes == sequence then Success(0) else Success(-1))
    else Scan(bytes, sequence, 0, 0)
  }

  /** findByteSequence (NetconfXMLToHelloMessageDecoder.java:135-158). */
  method FindByteSequence(bytes: seq<Byte>, sequence: seq<Byte>) returns (r: Result<int, Exception>)
    ensures r == Find(bytes, sequence)
  {
    if |bytes| < |sequence| {
      return Failure(IllegalArgument);
    }
    if |bytes| == |sequence| {
      if bytes == sequence {
        return Success(0);
      }
      return Success(-1);
    }
    var index: nat := 0;
    for i := 0 to |bytes|
      invariant index <= i && (index < |sequence| || index == 0)
      invariant bytes[i - index..i] == sequence[..index]
      invariant Scan(bytes, sequence, i, index) == Find(bytes, sequence)
    {
      if index >= |sequence| {
        return Failure(IndexOutOfBounds);
      }
      if bytes[i] == sequence[index] {
        assert bytes[i - index..i + 1] == bytes[i - index..i] + [bytes[i]];
        assert sequence[..index + 1] == sequence[..index] + [sequence[index]];
        index := index + 1;
        if index == |sequence| {
          return Success(i - index + 1);
        }
      } else {
        index := 0;
      }
    }
    return Success(-1);
  }

  /** The search misses an occurrence that starts on a byte that broke a partial match. */
  lemma FindMissesOverlap()
    ensures OccursAt([CLOSE, CLOSE, LF], [CLOSE, LF], 1)
    ensures Find([CLOSE, CLOSE, LF], [CLOSE, LF]) == Success(-1)
  {
    var bytes: seq<Byte> := [CLOSE, CLOSE, LF];
    var sequence: seq<Byte> := [CLOSE, LF];
    assert bytes[1..3] == sequence;
    assert Scan(bytes, sequence, 2, 0) == Success(-1);
    assert Scan(bytes, sequence, 1, 1) == Success(-1);
  }

  // ------------------------------------------------------------------
  // startsWithAdditionalHeader

  /** `p` is a prefix of `bytes`. */
  predicate IsPrefix(p: seq<Byte>, bytes: seq<Byte>)
  {
    |p| <= |bytes| && bytes[..|p|] == p
  }

  /**
   * The inner loop of startsWithAdditionalHeader: compares `start` with the
   * front of `bytes` from position `index` on, reading bytes[index] before it
   * knows whether `bytes` is that long.
   */
  function MatchStart(bytes: seq<Byte>, start: seq<Byte>, index: nat): (r: Result<bool, Exception>)
    requires index <= |start| && index <= |bytes|
    requires bytes[..index] == start[..index]
    ensures index < |start| ==> (r == Success(true) <==> IsPrefix(start, bytes))
    ensures index < |start| ==> (r.Failure? <==> |bytes| < |start| && bytes == start[..|bytes|])
    ensures r.Failure? ==> r.error == IndexOutOfBounds
    decreases |start| - index
  {
    if index == |start| then Success(false)
    else if index >= |bytes| then Failure(IndexOutOfBounds)
    else if bytes[index] != start[index] then Success(false)
    else
      assert bytes[..index + 1] == bytes[..index] + [bytes[index]];
      assert start[..index + 1] == start[..index] + [start[index]];
      if index + 1 == |start| then Success(true)
      else MatchStart(bytes, start, index + 1)
  }

  /** The outer loop of startsWithAdditionalHeader over the candidate starts. */
  function MatchStarts(bytes: seq<Byte>, starts: seq<seq<Byte>>): Result<bool, Exception>
    decreases |starts|
  {
    if starts == [] then Success(false)
    else
      match MatchStart(bytes, starts[0], 0)
      case Failure(e) => Failure(e)
      case Success(true) => Success(true)
      case Success(false) => MatchStarts(bytes, starts[1..])
  }

  /** What startsWithAdditionalHeader returns or throws for `bytes`. */
  function HeaderStart(bytes: seq<Byte>): Result<bool, Exception>
  {
    MatchStarts(bytes, POSSIBLE_STARTS)
  }

  /**
   * startsWithAdditionalHeader answers true exactly when the frame begins with
   * "[", "\r\n[" or "\n["; it reads past the end, and throws, exactly on the
   * four short inputs that are proper prefixes of a start it tries.
   */
  lemma HeaderStartMeaning(bytes: seq<Byte>)
    ensures HeaderStart(bytes).Failure? <==> bytes == [] || bytes == [CR] || bytes == [CR, LF] || bytes == [LF]
    ensures HeaderStart(bytes).Failure? ==> HeaderStart(bytes).error == IndexOutOfBounds
    ensures HeaderStart(bytes).Success? ==>
      (HeaderStart(bytes).value <==> IsPrefix([OPEN], bytes) || IsPrefix([CR, LF, OPEN], bytes) || IsPrefix([LF, OPEN], bytes))
  {
    var s0: seq<Byte>, s1: seq<Byte>, s2: seq<Byte> := [OPEN], [CR, LF, OPEN], [LF, OPEN];
    assert POSSIBLE_STARTS[0] == s0 && POSSIBLE_STARTS[1..] == [s1, s2];
    assert [s1, s2][0] == s1 && [s1, s2][1..] == [s2];
    assert [s2][0] == s2 && [s2][1..] == [];
    var m0, m1, m2 := MatchStart(bytes, s0, 0), MatchStart(bytes, s1, 0), MatchStart(bytes, s2, 0);
    assert POSSIBLE_STARTS == [s0, s1, s2];
    assert [s0, s1, s2][0] == s0 && [s0, s1, s2][1..] == [s1, s2];
    var r2 := MatchStarts(bytes, [s2]);
    assert MatchStarts(bytes, [s2][1..]) == Success(false);
    assert r2 == match m2 case Failure(e) => Failure(e) case Success(b) => Success(b);
    var r1 := MatchStarts(bytes, [s1, s2]);
    assert r1 == match m1 case Failure(e) => Failure(e) case Success(true) => Success(true) case Success(false) => r2;
    assert HeaderStart(bytes) == match m0 case Failure(e) => Failure(e) case Success(true) => Success(true) case Success(false) => r1;
    if |bytes| == 0 {
      assert m0.Failure?;
    } else {
      assert bytes[..1] == [bytes[0]];
      if bytes[0] != OPEN {
        assert m0 == Success(false);
        if bytes[0] == CR {
          assert m2 == Success(false);
          if |bytes| == 1 {
            assert bytes == s1[..1];
          } else if bytes[1] == LF {
            assert bytes[..2] == [bytes[0], bytes[1]];
            if |bytes| == 2 {
              assert bytes == s1[..2];
            } else {
              assert bytes[..3] == [bytes[0], bytes[1], bytes[2]];
            }
          } else {
            assert bytes[..2] == [bytes[0], bytes[1]];
            assert m1 == Success(false);
          }
        } else {
          assert m1 == Success(false);
          if bytes[0] == LF {
            if |bytes| == 1 {
              assert bytes == s2[..1];
            } else {
              assert bytes[..2] == [bytes[0], bytes[1]];
            }
          } else {
            assert m2 == Success(false);
          }
        }
      }
    }
  }

  /** startsWithAdditionalHeader (NetconfXMLToHelloMessageDecoder.java:167-182). */
  method StartsWithAdditionalHeader(bytes: seq<Byte>) returns (r: Result<bool, Exception>)
    ensures r == HeaderStart(bytes)
  {
    for s := 0 to |POSSIBLE_STARTS|
      invariant MatchStarts(bytes, POSSIBLE_STARTS[s..]) == HeaderStart(bytes)
    {
      var possibleStart := POSSIBLE_STARTS[s];
      assert POSSIBLE_STARTS[s..][0] == possibleStart;
      assert POSSIBLE_STARTS[s..][1..] == POSSIBLE_STARTS[s + 1..];
      var index := 0;
      for j := 0 to |possibleStart|
        invariant index == j <= |bytes|
        invariant bytes[..index] == possibleStart[..index]
        invariant MatchStart(bytes, possibleStart, index) == MatchStart(bytes, possibleStart, 0)
      {
        if index >= |bytes| {
          return Failure(IndexOutOfBounds);
        }
        var read := bytes[index];
        index := index + 1;
        if read != possibleStart[j] {
          assert MatchStart(bytes, possibleStart, 0) == Success(false);
          break;
        }
        assert bytes[..index] == bytes[..index - 1] + [bytes[index - 1]];
        assert possibleStart[..index] == possibleStart[..index - 1] + [possibleStart[index - 1]];
        if index == |possibleStart| {
          return Success(true);
        }
      }
      assert MatchStart(bytes, possibleStart, 0) == Success(false);
    }
    return Success(false);
  }

  // ------------------------------------------------------------------
  // getAdditionalHeaderEndIndex

  /** The bytes up to position `end` finish with `e`. */
  predicate EndsAt(bytes: seq<Byte>, e: seq<Byte>, end: int)
  {
    |e| <= end <= |bytes| && bytes[end - |e|..end] == e
  }

  /**
   * getAdditionalHeaderEndIndex over the candidate ends `ends`: the end
   * position of the first candidate the search finds, or -1; an exception of
   * the search propagates.
   */
  function HeaderEndFrom(bytes: seq<Byte>, ends: seq<seq<Byte>>): (r: Result<int, Exception>)
    ensures r.Success? ==> -1 <= r.value <= |bytes|
    ensures r.Success? && r.value != -1 ==> exists j :: 0 <= j < |ends| && EndsAt(bytes, ends[j], r.value)
    decreases |ends|
  {
    if ends == [] then Success(-1)
    else
      match Find(bytes, ends[0])
      case Failure(e) => Failure(e)
      case Success(idx) =>
        if idx != -1 then
          assert EndsAt(bytes, ends[0], idx + |ends[0]|);
          Success(idx + |ends[0]|)
        else
          var rest := HeaderEndFrom(bytes, ends[1..]);
          assert rest.Success? && rest.value != -1 ==> exists j :: 1 <= j < |ends| && EndsAt(bytes, ends[j], rest.value) by {
            if rest.Success? && rest.value != -1 {
              var j :| 0 <= j < |ends[1..]| && EndsAt(bytes, ends[1..][j], rest.value);
              assert ends[1..][j] == ends[j + 1];
            }
          }
          rest
  }

  /** What getAdditionalHeaderEndIndex returns or throws for `bytes`. */
  function HeaderEnd(bytes: seq<Byte>): Result<int, Exception>
  {
    HeaderEndFrom(bytes, POSSIBLE_ENDS)
  }

  /**
   * getAdditionalHeaderEndIndex looks for "]\n" anywhere before it looks for
   * "]\r\n"; a found end position is just past one of them; it throws on
   * frames too short for the search.
   */
  lemma HeaderEndMeaning(bytes: seq<Byte>)
    ensures HeaderEnd(bytes).Failure? <==> |bytes| < 2 || (|bytes| == 2 && bytes != [CLOSE, LF])
    ensures HeaderEnd(bytes).Failure? ==> HeaderEnd(bytes).error == IllegalArgument
    ensures var r := HeaderEnd(bytes);
      r.Success? && r.value != -1 ==> EndsAt(bytes, [CLOSE, LF], r.value) || EndsAt(bytes, [CLOSE, CR, LF], r.value)
    ensures var first := Find(bytes, [CLOSE, LF]);
      first.Success? && first.value >= 0 ==> HeaderEnd(bytes) == Success(first.value + 2)
    ensures HeaderEnd(bytes) == Success(-1) ==>
      Find(bytes, [CLOSE, LF]) == Success(-1) && Find(bytes, [CLOSE, CR, LF]) == Success(-1)
    ensures var second := Find(bytes, [CLOSE, CR, LF]);
      Find(bytes, [CLOSE, LF]) == Success(-1) && second.Success? && second.value >= 0 ==>
        HeaderEnd(bytes) == Success(second.value + 3)
    ensures Find(bytes, [CLOSE, LF]) == Success(-1) && Find(bytes, [CLOSE, CR, LF]) == Success(-1) ==>
      HeaderEnd(bytes) == Success(-1)
  {
    HeaderEndFailure(bytes);
    HeaderEndSecondCandidate(bytes);
    HeaderEndFound(bytes);
    HeaderEndPrefersFirst(bytes);
    HeaderEndNone(bytes);
  }

  /** getAdditionalHeaderEndIndex throws, always IllegalArgument, exactly on frames too short for the search. */
  lemma HeaderEndFailure(bytes: seq<Byte>)
    ensures HeaderEnd(bytes).Failure? <==> |bytes| < 2 || (|bytes| == 2 && bytes != [CLOSE, LF])
    ensures HeaderEnd(bytes).Failure? ==> HeaderEnd(bytes).error == IllegalArgument
  {
    var e0: seq<Byte>, e1: seq<Byte> := [CLOSE, LF], [CLOSE, CR, LF];
    HeaderEndUnfold(bytes);
    var f0 := Find(bytes, e0);
    if |bytes| >= 2 {
      assert f0.Success?;
      if |bytes| == 2 && bytes != e0 {
        assert f0 == Success(-1);
        assert Find(bytes, e1) == Failure(IllegalArgument);
      } else if f0.value == -1 {
        assert |bytes| >= 3;
        assert Find(bytes, e1).Success?;
      }
    }
  }

  /** A found end lies just past "]\n" or "]\r\n". */
  lemma HeaderEndFound(bytes: seq<Byte>)
    ensures var r := HeaderEnd(bytes);
      r.Success? && r.value != -1 ==> EndsAt(bytes, [CLOSE, LF], r.value) || EndsAt(bytes, [CLOSE, CR, LF], r.value)
  {
    var e0: seq<Byte>, e1: seq<Byte> := [CLOSE, LF], [CLOSE, CR, LF];
    HeaderEndUnfold(bytes);
    var f0, f1 := Find(bytes, e0), Find(bytes, e1);
    if f0.Success? && f0.value != -1 {
      assert bytes[f0.value..f0.value + 2] == e0;
    } else if f0.Success? && f1.Success? && f1.value != -1 {
      assert bytes[f1.value..f1.value + 3] == e1;
    }
  }

  /** A "]\n" that the search finds wins over "]\r\n". */
  lemma HeaderEndPrefersFirst(bytes: seq<Byte>)
    ensures var first := Find(bytes, [CLOSE, LF]);
      first.Success? && first.value >= 0 ==> HeaderEnd(bytes) == Success(first.value + 2)
  {
    HeaderEndUnfold(bytes);
  }

  /** When "]\n" is not found, "]\r\n" decides: its offset + 3, or -1 when it is not found either. */
  lemma HeaderEndSecondCandidate(bytes: seq<Byte>)
    ensures var second := Find(bytes, [CLOSE, CR, LF]);
      Find(bytes, [CLOSE, LF]) == Success(-1) && second.Success? && second.value >= 0 ==>
        HeaderEnd(bytes) == Success(second.value + 3)
    ensures Find(bytes, [CLOSE, LF]) == Success(-1) && Find(bytes, [CLOSE, CR, LF]) == Success(-1) ==>
      HeaderEnd(bytes) == Success(-1)
  {
    HeaderEndUnfold(bytes);
  }

  /** -1 means that both searches returned -1. */
  lemma HeaderEndNone(bytes: seq<Byte>)
    ensures HeaderEnd(bytes) == Success(-1) ==>
      Find(bytes, [CLOSE, LF]) == Success(-1) && Find(bytes, [CLOSE, CR, LF]) == Success(-1)
  {
    HeaderEndUnfold(bytes);
    var f0 := Find(bytes, [CLOSE, LF]);
    if f0.Success? && f0.value != -1 {
      assert f0.value >= 0;
    }
  }

  /** getAdditionalHeaderEndIndex written out over its two candidate ends. */
  lemma HeaderEndUnfold(bytes: seq<Byte>)
    ensures HeaderEnd(bytes) ==
      match Find(bytes, [CLOSE, LF])
      case Failure(e) => Failure(e)
      case Success(i) =>
        if i != -1 then Success(i + 2)
        else
          match Find(bytes, [CLOSE, CR, LF])
          case Failure(e) => Failure(e)
          case Success(j) => if j != -1 then Success(j + 3) else Success(-1)
  {
    HeaderEndFirst(bytes);
    HeaderEndSecond(bytes);
  }

  lemma HeaderEndFirst(bytes: seq<Byte>)
    ensures HeaderEnd(bytes) ==
      match Find(bytes, [CLOSE, LF])
      case Failure(e) => Failure(e)
      case Success(i) => if i != -1 then Success(i + 2) else HeaderEndFrom(bytes, [[CLOSE, CR, LF]])
  {
    assert POSSIBLE_ENDS[0] == [CLOSE, LF] && POSSIBLE_ENDS[1..] == [[CLOSE, CR, LF]];
  }

  lemma HeaderEndSecond(bytes: seq<Byte>)
    ensures HeaderEndFrom(bytes, [[CLOSE, CR, LF]]) ==
      match Find(bytes, [CLOSE, CR, LF])
      case Failure(e) => Failure(e)
      case Success(j) => if j != -1 then Success(j + 3) else Success(-1)
  {
    var e1: seq<Byte> := [CLOSE, CR, LF];
    assert [e1][0] == e1 && [e1][1..] == [];
    assert HeaderEndFrom(bytes, []) == Success(-1);
  }

  /** getAdditionalHeaderEndIndex (NetconfXMLToHelloMessageDecoder.java:123-133). */
  method GetAdditionalHeaderEndIndex(bytes: seq<Byte>) returns (r: Result<int, Exception>)
    ensures r == HeaderEnd(bytes)
  {
    for e := 0 to |POSSIBLE_ENDS|
      invariant HeaderEndFrom(bytes, POSSIBLE_ENDS[e..]) == HeaderEnd(bytes)
    {
      var possibleEnd := POSSIBLE_ENDS[e];
      assert POSSIBLE_ENDS[e..][0] == possibleEnd;
      assert POSSIBLE_ENDS[e..][1..] == POSSIBLE_ENDS[e + 1..];
      var idx := FindByteSequence(bytes, possibleEnd);
      if idx.Failure? {
        return Failure(idx.error);
      }
      if idx.value != -1 {
        return Success(idx.value + |possibleEnd|);
      }
    }
    return Success(-1);
  }

  // ------------------------------------------------------------------
  // Splitting a frame into header and body

  /** A frame with its additional header (raw bytes, if any) taken off the front. */
  datatype Frame = Frame(header: Option<seq<Byte>>, body: seq<Byte>)

  /** The header/body split of decode, or the exception a helper throws. */
  function SplitFrame(bytes: seq<Byte>): (r: Result<Frame, Exception>)
  {
    match HeaderStart(bytes)
    case Failure(e) => Failure(e)
    case Success(false) => Success(Frame(None, bytes))
    case Success(true) =>
      match HeaderEnd(bytes)
      case Failure(e) => Failure(e)
      case Success(end) =>
        if end > -1 then Success(Frame(Some(bytes[..end]), bytes[end..]))
        else Success(Frame(None, bytes))
  }

  /**
   * A split-off header and the body together are the frame; the header
   * opens with a start and closes with "]\n" or "]\r\n"; when no end is found
   * the body is the whole frame.
   */
  lemma SplitFrameMeaning(bytes: seq<Byte>)
    ensures var r := SplitFrame(bytes);
      r.Success? && r.value.header.Some? ==>
        && r.value.header.value + r.value.body == bytes
        && HeaderStart(bytes) == Success(true)
        && (EndsAt(r.value.header.value, [CLOSE, LF], |r.value.header.value|)
            || EndsAt(r.value.header.value, [CLOSE, CR, LF], |r.value.header.value|))
    ensures var r := SplitFrame(bytes);
      r.Success? && r.value.header.None? ==> r.value.body == bytes
    ensures SplitFrame(bytes).Failure? <==>
      HeaderStart(bytes).Failure? || (HeaderStart(bytes) == Success(true) && HeaderEnd(bytes).Failure?)
    ensures HeaderStart(bytes) == Success(true) && HeaderEnd(bytes).Success? && HeaderEnd(bytes).value > -1 ==>
      SplitFrame(bytes) == Success(Frame(Some(bytes[..HeaderEnd(bytes).value]), bytes[HeaderEnd(bytes).value..]))
    ensures SplitFrame(bytes).Success? && SplitFrame(bytes).value.header.None? ==>
      HeaderStart(bytes) == Success(false) || HeaderEnd(bytes) == Success(-1)
    ensures HeaderStart(bytes) == Success(false) || (HeaderStart(bytes) == Success(true) && HeaderEnd(bytes) == Success(-1)) ==>
      SplitFrame(bytes) == Success(Frame(None, bytes))
  {
    var r := SplitFrame(bytes);
    if r.Success? && r.value.header.Some? {
      var end := SplitFrameCut(bytes);
      HeaderEndFound(bytes);
      assert bytes[..end] + bytes[end..] == bytes;
      if EndsAt(bytes, [CLOSE, LF], end) {
        EndsAtPrefix(bytes, [CLOSE, LF], end);
      } else {
        EndsAtPrefix(bytes, [CLOSE, CR, LF], end);
      }
    }
  }

  /**
   * Through the missed overlap of findByteSequence, "[]]\n" keeps its header:
   * the frame ends with "]\n", yet nothing is split off and the whole frame is
   * handed to the XML parser.
   */
  lemma SplitMissesOverlappingEnd()
    ensures EndsAt([OPEN, CLOSE, CLOSE, LF], [CLOSE, LF], 4)
    ensures SplitFrame([OPEN, CLOSE, CLOSE, LF]) == Success(Frame(None, [OPEN, CLOSE, CLOSE, LF]))
  {
    var bytes: seq<Byte> := [OPEN, CLOSE, CLOSE, LF];
    var e0: seq<Byte>, e1: seq<Byte> := [CLOSE, LF], [CLOSE, CR, LF];
    assert bytes[2..4] == e0;
    HeaderStartMeaning(bytes);
    assert IsPrefix([OPEN], bytes) by { assert bytes[..1] == [OPEN]; }
    assert Scan(bytes, e0, 3, 0) == Success(-1);
    assert Scan(bytes, e0, 2, 1) == Success(-1);
    assert Scan(bytes, e0, 1, 0) == Success(-1);
    assert Find(bytes, e0) == Success(-1);
    assert Scan(bytes, e1, 3, 0) == Success(-1);
    assert Scan(bytes, e1, 2, 1) == Success(-1);
    assert Scan(bytes, e1, 1, 0) == Success(-1);
    assert Find(bytes, e1) == Success(-1);
    HeaderEndSecondCandidate(bytes);
    SplitFrameMeaning(bytes);
  }

  /** A split-off header is the frame cut where getAdditionalHeaderEndIndex says. */
  lemma SplitFrameCut(bytes: seq<Byte>) returns (end: int)
    requires SplitFrame(bytes).Success? && SplitFrame(bytes).value.header.Some?
    ensures HeaderStart(bytes) == Success(true) && HeaderEnd(bytes) == Success(end)
    ensures 0 <= end <= |bytes| && SplitFrame(bytes).value == Frame(Some(bytes[..end]), bytes[end..])
  {
    end := HeaderEnd(bytes).value;
  }

  /** Cutting the bytes at `end` keeps what ends there. */
  lemma EndsAtPrefix(bytes: seq<Byte>, e: seq<Byte>, end: int)
    requires EndsAt(bytes, e, end)
    ensures EndsAt(bytes[..end], e, end)
  {
    assert bytes[..end][end - |e|..end] == bytes[end - |e|..end];
  }

  // ------------------------------------------------------------------
  // Messages and the hello barrier

  /**
   * A parsed NETCONF message over a document of type D: a hello (with the raw
   * additional header it arrived with, if any) or any other message.
   */
  datatype NetconfMessage<D> = Hello(document: D, additionalHeader: Option<seq<Byte>>) | Plain(document: D)

  /** getNetconfMessage: wraps the document, as a hello exactly when the classifier says so. */
  function GetNetconfMessage<D>(isHello: D -> bool, additionalHeader: Option<seq<Byte>>, doc: D): (m: NetconfMessage<D>)
    ensures m.document == doc
    ensures m.Hello? <==> isHello(doc)
    ensures m.Hello? ==> m.additionalHeader == additionalHeader
  {
    if isHello(doc) then Hello(doc, additionalHeader) else Plain(doc)
  }

  /** The message a non-empty frame carries, or the exception raised on the way to it. */
  function Message<D>(readXml: seq<Byte> -> Option<D>, isHello: D -> bool, bytes: seq<Byte>): Result<NetconfMessage<D>, Exception>
  {
    match SplitFrame(bytes)
    case Failure(e) => Failure(e)
    case Success(frame) =>
      match readXml(frame.body)
      case None => Failure(XmlParse)
      case Some(doc) => Success(GetNetconfMessage(isHello, frame.header, doc))
  }

  /** The decoder's own state: `helloReceived` and `nonHelloMessages`. */
  datatype Negotiation<D> = Negotiation(helloReceived: bool, nonHelloMessages: seq<NetconfMessage<D>>)

  /** The effect of one decode call: the new state, what was added to `out`, and the exception thrown, if any. */
  datatype Decoded<D> = Decoded(after: Negotiation<D>, emitted: seq<NetconfMessage<D>>, outcome: Outcome<Exception>)

  /** One call of decode on the readable bytes `bytes`. */
  function DecodeFrame<D>(readXml: seq<Byte> -> Option<D>, isHello: D -> bool, st: Negotiation<D>, bytes: seq<Byte>): (r: Decoded<D>)
    ensures |bytes| == 0 ==> r == Decoded(st, [], Pass)
    ensures r.outcome.Fail? ==> r.after == st && r.emitted == []
    ensures |r.emitted| <= 1
    ensures r.emitted != [] ==> r.emitted[0].Hello? && !st.helloReceived && r.after == st.(helloReceived := true)
    ensures r.after.helloReceived <==> st.helloReceived || r.emitted != []
    ensures r.after.nonHelloMessages == st.nonHelloMessages
         || (&& st.helloReceived && r.emitted == []
             && |r.after.nonHelloMessages| == |st.nonHelloMessages| + 1
             && r.after.nonHelloMessages[..|st.nonHelloMessages|] == st.nonHelloMessages
             && r.after.nonHelloMessages[|st.nonHelloMessages|].Plain?)
  {
    if |bytes| == 0 then Decoded(st, [], Pass)
    else
      match Message(readXml, isHello, bytes)
      case Failure(e) => Decoded(st, [], Fail(e))
      case Success(message) =>
        if message.Hello? then
          if st.helloReceived then Decoded(st, [], Fail(IllegalState))
          else Decoded(st.(helloReceived := true), [message], Pass)
        else if !st.helloReceived then Decoded(st, [], Fail(IllegalState))
        else
          var buffered := st.nonHelloMessages + [message];
          assert buffered[..|st.nonHelloMessages|] == st.nonHelloMessages;
          Decoded(st.(nonHelloMessages := buffered), [], Pass)
  }

  /**
   * The four cases of the barrier for a frame that parses to message `m`:
   * the first hello is passed on and sets helloReceived, a second hello is
   * refused, a non-hello before the hello is refused, and a non-hello after
   * it is appended to nonHelloMessages and not passed on.
   */
  lemma HelloBarrier<D>(readXml: seq<Byte> -> Option<D>, isHello: D -> bool, st: Negotiation<D>, bytes: seq<Byte>, m: NetconfMessage<D>)
    requires |bytes| > 0 && Message(readXml, isHello, bytes) == Success(m)
    ensures m.Hello? && !st.helloReceived ==>
      DecodeFrame(readXml, isHello, st, bytes) == Decoded(st.(helloReceived := true), [m], Pass)
    ensures m.Hello? && st.helloReceived ==>
      DecodeFrame(readXml, isHello, st, bytes) == Decoded(st, [], Fail(IllegalState))
    ensures m.Plain? && !st.helloReceived ==>
      DecodeFrame(readXml, isHello, st, bytes) == Decoded(st, [], Fail(IllegalState))
    ensures m.Plain? && st.helloReceived ==>
      DecodeFrame(readXml, isHello, st, bytes) == Decoded(st.(nonHelloMessages := st.nonHelloMessages + [m]), [], Pass)
  {
  }

  /**
   * A frame that does not yield a message makes decode throw what the split or
   * the parser threw, with nothing passed on and the decoder's state unchanged.
   */
  lemma DecodeRefusesBadFrame<D>(readXml: seq<Byte> -> Option<D>, isHello: D -> bool, st: Negotiation<D>, bytes: seq<Byte>)
    requires |bytes| > 0 && Message(readXml, isHello, bytes).Failure?
    ensures DecodeFrame(readXml, isHello, st, bytes) == Decoded(st, [], Fail(Message(readXml, isHello, bytes).error))
  {
  }

  /**
   * A frame yields no message exactly when its split throws or its body is
   * not XML; an exception of the split propagates unchanged, a bad body is an
   * XmlParse error, and a message wraps the parsed body with the split-off
   * header.
   */
  lemma MessageMeaning<D>(readXml: seq<Byte> -> Option<D>, isHello: D -> bool, bytes: seq<Byte>)
    ensures Message(readXml, isHello, bytes).Failure? <==>
      SplitFrame(bytes).Failure? || readXml(SplitFrame(bytes).value.body).None?
    ensures SplitFrame(bytes).Failure? ==> Message(readXml, isHello, bytes) == Failure(SplitFrame(bytes).error)
    ensures SplitFrame(bytes).Success? && readXml(SplitFrame(bytes).value.body).None? ==>
      Message(readXml, isHello, bytes) == Failure(XmlParse)
    ensures var m := Message(readXml, isHello, bytes);
      m.Success? ==>
        && SplitFrame(bytes).Success?
        && readXml(SplitFrame(bytes).value.body) == Some(m.value.document)
        && (m.value.Hello? <==> isHello(m.value.document))
        && (m.value.Hello? ==> m.value.additionalHeader == SplitFrame(bytes).value.header)
  {
  }

  /**
   * The short frames on which startsWithAdditionalHeader reads past the end
   * make decode throw IndexOutOfBounds.
   */
  lemma DecodeRefusesShortFrame<D>(readXml: seq<Byte> -> Option<D>, isHello: D -> bool, st: Negotiation<D>, bytes: seq<Byte>)
    requires bytes == [CR] || bytes == [CR, LF] || bytes == [LF]
    ensures DecodeFrame(readXml, isHello, st, bytes) == Decoded(st, [], Fail(IndexOutOfBounds))
  {
    HeaderStartMeaning(bytes);
  }

  /** decode applied to the frames in order: the final state and everything added to `out`. */
  function Run<D>(readXml: seq<Byte> -> Option<D>, isHello: D -> bool, st: Negotiation<D>, frames: seq<seq<Byte>>): (Negotiation<D>, seq<NetconfMessage<D>>)
    decreases |frames|
  {
    if frames == [] then (st, [])
    else
      var d := DecodeFrame(readXml, isHello, st, frames[0]);
      var rest := Run(readXml, isHello, d.after, frames[1..]);
      (rest.0, d.emitted + rest.1)
  }

  /**
   * Over any sequence of frames only hellos are passed on, and at most one
   * in the decoder's lifetime: exactly when helloReceived goes from false to
   * true. Held-back messages are only ever appended, are all non-hello, and
   * are held only once the hello has been received.
   */
  lemma {:induction false} RunPassesOneHello<D>(readXml: seq<Byte> -> Option<D>, isHello: D -> bool, st: Negotiation<D>, frames: seq<seq<Byte>>)
    ensures var r := Run(readXml, isHello, st, frames);
      forall i :: 0 <= i < |r.1| ==> r.1[i].Hello?
    ensures var r := Run(readXml, isHello, st, frames);
      |r.1| + (if st.helloReceived then 1 else 0) == (if r.0.helloReceived then 1 else 0)
    ensures var r := Run(readXml, isHello, st, frames);
      && |st.nonHelloMessages| <= |r.0.nonHelloMessages|
      && r.0.nonHelloMessages[..|st.nonHelloMessages|] == st.nonHelloMessages
      && (forall i :: |st.nonHelloMessages| <= i < |r.0.nonHelloMessages| ==> r.0.nonHelloMessages[i].Plain?)
      && (|r.0.nonHelloMessages| > |st.nonHelloMessages| ==> r.0.helloReceived)
    decreases |frames|
  {
    if frames != [] {
      var d := DecodeFrame(readXml, isHello, st, frames[0]);
      RunPassesOneHello(readXml, isHello, d.after, frames[1..]);
      var rest := Run(readXml, isHello, d.after, frames[1..]);
      var n, n1 := st.nonHelloMessages, d.after.nonHelloMessages;
      assert rest.0.nonHelloMessages[..|n1|] == n1;
      assert n1[..|n|] == n;
      assert rest.0.nonHelloMessages[..|n|] == n by {
        assert rest.0.nonHelloMessages[..|n|] == rest.0.nonHelloMessages[..|n1|][..|n|];
      }
      forall i | |n| <= i < |rest.0.nonHelloMessages|
        ensures rest.0.nonHelloMessages[i].Plain?
      {
        if i < |n1| {
          assert rest.0.nonHelloMessages[i] == rest.0.nonHelloMessages[..|n1|][i];
        }
      }
    }
  }

  // ------------------------------------------------------------------
  // The decoder object

  /** The readable part of the Netty buffer handed to decode. */
  class ByteBuf {
    var readable: seq<Byte>

    constructor(bytes: seq<Byte>)
      ensures readable == bytes
    {
      readable := bytes;
    }
  }

  /** The output list decode appends the passed-on hello to. */
  class MessageList<D> {
    var items: seq<NetconfMessage<D>>

    constructor()
      ensures items == []
    {
      items := [];
    }
  }

  /**
   * NetconfXMLToHelloMessageDecoder. The XML parser and the hello classifier
   * are foreign code and are given to the constructor as functions.
   */
  class NetconfXMLToHelloMessageDecoder<D> {
    const readXml: seq<Byte> -> Option<D>
    const isHello: D -> bool
    var nonHelloMessages: seq<NetconfMessage<D>>
    var helloReceived: bool

    /** Held-back messages are non-hello ones, held only after the hello. */
    ghost predicate Valid()
      reads this
    {
      && (nonHelloMessages != [] ==> helloReceived)
      && forall i :: 0 <= i < |nonHelloMessages| ==> nonHelloMessages[i].Plain?
    }

    function State(): Negotiation<D>
      reads this
    {
      Negotiation(helloReceived, nonHelloMessages)
    }

    constructor(readXml: seq<Byte> -> Option<D>, isHello: D -> bool)
      ensures Valid()
      ensures this.readXml == readXml && this.isHello == isHello
      ensures !helloReceived && nonHelloMessages == []
    {
      this.readXml := readXml;
      this.isHello := isHello;
      nonHelloMessages := [];
      helloReceived := false;
    }

    /**
     * decode (NetconfXMLToHelloMessageDecoder.java:61-108). An empty buffer
     * changes nothing; otherwise every readable byte is consumed and
     * discarded, whether the call completes or throws.
     */
    method Decode(input: ByteBuf, out: MessageList<D>) returns (outcome: Outcome<Exception>)
      requires Valid()
      modifies this, input, out
      ensures Valid()
      ensures var d := DecodeFrame(readXml, isHello, old(State()), old(input.readable));
        State() == d.after && out.items == old(out.items) + d.emitted && outcome == d.outcome
      ensures input.readable == []
    {
      if |input.readable| == 0 {
        return Pass;
      }
      var bytes := input.readable;
      outcome := DecodeBytes(bytes, out);
      // readBytes consumed the buffer; discardReadBytes runs in the finally block
      input.readable := [];
    }

    /** The body of decode's try block, on the bytes read from the buffer. */
    method DecodeBytes(bytes: seq<Byte>, out: MessageList<D>) returns (outcome: Outcome<Exception>)
      requires Valid() && |bytes| > 0
      modifies this, out
      ensures Valid()
      ensures var d := DecodeFrame(readXml, isHello, old(State()), bytes);
        State() == d.after && out.items == old(out.items) + d.emitted && outcome == d.outcome
    {
      var additionalHeader: Option<seq<Byte>> := None;
      var body := bytes;
      var starts := StartsWithAdditionalHeader(bytes);
      if starts.Failure? {
        return Fail(starts.error);
      }
      if starts.value {
        var endOfAuthHeader := GetAdditionalHeaderEndIndex(bytes);
        if endOfAuthHeader.Failure? {
          return Fail(endOfAuthHeader.error);
        }
        if endOfAuthHeader.value > -1 {
          additionalHeader := Some(bytes[..endOfAuthHeader.value]);
          body := bytes[endOfAuthHeader.value..];
        }
      }
      assert SplitFrame(bytes) == Success(Frame(additionalHeader, body));
      var doc := readXml(body);
      if doc.None? {
        return Fail(XmlParse);
      }
      var message := GetNetconfMessage(isHello, additionalHeader, doc.value);
      if message.Hello? {
        if helloReceived {
          return Fail(IllegalState);
        }
        out.items := out.items + [message];
        helloReceived := true;
      } else {
        if !helloReceived {
          return Fail(IllegalState);
        }
        nonHelloMessages := nonHelloMessages + [message];
      }
      return Pass;
    }

    /** getPostHelloNetconfMessages: the held-back messages, in arrival order. */
    function GetPostHelloNetconfMessages(): (r: seq<NetconfMessage<D>>)
      reads this
      requires Valid()
      ensures r == nonHelloMessages
      ensures forall i :: 0 <= i < |r| ==> r[i].Plain?
      ensures r != [] ==> helloReceived
    {
      nonHelloMessages
    }
  }
}
