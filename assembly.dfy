/**
 * Reply assembly as a function of the scripted socket: the first chunk decides
 * by its status whether the reply is complete at once; otherwise chunks are
 * appended until the buffer is complete in the sense of Framing.
 */
module Assembly {
  import opened Wrappers
  import opened Framing
  import opened Protocol

  /** The chunks of the Ready events, concatenated in order. */
  function Chunks(ev: seq<Event>): Bytes
  {
    if ev == [] then []
    else (if ev[0].Ready? then ev[0].chunk else []) + Chunks(ev[1..])
  }

  predicate AllReady(ev: seq<Event>)
  {
    forall i :: 0 <= i < |ev| ==> ev[i].Ready?
  }

  /** `rest` is what is left of `ev` once some events at its front are consumed. */
  predicate SuffixOf(rest: seq<Event>, ev: seq<Event>)
  {
    |rest| <= |ev| && rest == ev[|ev| - |rest|..]
  }

  lemma SuffixOfTail(rest: seq<Event>, ev: seq<Event>)
    requires ev != [] && SuffixOf(rest, ev[1..])
    ensures SuffixOf(rest, ev)
  {
    assert ev[1..][|ev| - 1 - |rest|..] == ev[|ev| - |rest|..];
  }

  /**
   * The loop after a preliminary first chunk: `acc` holds what was read so far
   * and `code` is its status. Returns the reply or the error, and the events
   * not consumed.
   */
  function Collect(acc: Bytes, code: Status, ev: seq<Event>): (res: (Result<Bytes, Error>, seq<Event>))
    decreases |ev|
    ensures SuffixOf(res.1, ev)
    ensures res.0.Ok? ==> StartsWith(res.0.value, acc) && ResponseComplete(res.0.value)
    ensures res.0.Err? ==> res.0.error == Timeout(Some(code))
  {
    if ResponseComplete(acc) then (Ok(acc), ev)
    else if ev == [] then (Err(Timeout(Some(code))), [])
    else match ev[0]
      case TimedOut => (Err(Timeout(Some(code))), ev[1..])
      case Ready(c) =>
        var res := Collect(acc + c, code, ev[1..]);
        assert res.0.Ok? ==> StartsWith(res.0.value, acc) by {
          if res.0.Ok? {
            StartsWithShorter(res.0.value, acc, c);
          }
        }
        SuffixOfTail(res.1, ev);
        res
  }

  /** One whole reply read from the events `ev`, and the events left over. */
  function Assemble(reg: Registry, ev: seq<Event>): (res: (Result<Bytes, Error>, seq<Event>))
    ensures SuffixOf(res.1, ev)
    ensures res.0.Ok? ==>
      ev != [] && ev[0].Ready? && GetStatus(res.0.value).Some? &&
      GetStatus(res.0.value) == GetStatus(ev[0].chunk)
    ensures res.0.Err? ==> res.0.error.Timeout? || res.0.error == MalformedStatus
  {
    if ev == [] then (Err(Timeout(None)), [])
    else match ev[0]
      case TimedOut => (Err(Timeout(None)), ev[1..])
      case Ready(first) =>
        match GetStatus(first)
        case None => (Err(MalformedStatus), ev[1..])
        case Some(code) =>
          if code in reg.terminal then (Ok(first), ev[1..])
          else
            var res := Collect(first, code, ev[1..]);
            assert res.0.Ok? ==> GetStatus(res.0.value) == GetStatus(first) by {
              if res.0.Ok? {
                assert res.0.value == first + res.0.value[|first|..];
                GetStatusOfPrefix(first, res.0.value[|first|..]);
              }
            }
            res
  }

  /** The chunks of a nonempty prefix: those of its first event, then the rest. */
  lemma ChunksFront(ev: seq<Event>, j: int)
    requires 1 <= j <= |ev|
    ensures Chunks(ev[..j]) == (if ev[0].Ready? then ev[0].chunk else []) + Chunks(ev[1..][..j - 1])
  {
    assert ev[..j][1..] == ev[1..][..j - 1];
  }

  lemma AllReadyFront(ev: seq<Event>, j: int)
    requires 1 <= j <= |ev| && ev[0].Ready? && AllReady(ev[1..][..j - 1])
    ensures AllReady(ev[..j])
  {
    forall i | 0 <= i < j
      ensures ev[..j][i].Ready?
    {
      if i > 0 {
        assert ev[..j][i] == ev[1..][..j - 1][i - 1];
      }
    }
  }

  /** Reading the Ready event at the front of `ev` and then k - 1 more reads k events. */
  lemma ReadOneMore(acc: Bytes, ev: seq<Event>, v: Bytes, k: int)
    requires 1 <= k <= |ev| && ev[0].Ready?
    requires AllReady(ev[1..][..k - 1]) && v == (acc + ev[0].chunk) + Chunks(ev[1..][..k - 1])
    ensures AllReady(ev[..k]) && v == acc + Chunks(ev[..k])
  {
    ChunksFront(ev, k);
    AllReadyFront(ev, k);
  }

  /** One turn of the loop: an incomplete buffer and a successful wait append the chunk. */
  lemma CollectStep(acc: Bytes, code: Status, ev: seq<Event>)
    requires !ResponseComplete(acc) && ev != [] && ev[0].Ready?
    ensures Collect(acc, code, ev) == Collect(acc + ev[0].chunk, code, ev[1..])
  {
  }

  /** Collect succeeds on an incomplete buffer only by reading a chunk. */
  lemma CollectReads(acc: Bytes, code: Status, ev: seq<Event>)
    requires !ResponseComplete(acc) && Collect(acc, code, ev).0.Ok?
    ensures ev != [] && ev[0].Ready?
  {
  }

  /** Collect's result once the buffer is already complete: nothing is read. */
  lemma CollectOkDone(acc: Bytes, code: Status, ev: seq<Event>)
    requires ResponseComplete(acc)
    ensures var k := |ev| - |Collect(acc, code, ev).1|;
      AllReady(ev[..k]) && Collect(acc, code, ev).0.value == acc + Chunks(ev[..k])
  {
    assert Collect(acc, code, ev) == (Ok(acc), ev);
    assert ev[..0] == [];
  }

  /** The inductive step of CollectOk: one more Ready event in front of what the loop read next. */
  lemma CollectOkMore(acc: Bytes, code: Status, ev: seq<Event>)
    requires !ResponseComplete(acc) && ev != [] && ev[0].Ready?
    requires Collect(acc + ev[0].chunk, code, ev[1..]).0.Ok?
    requires var k := |ev[1..]| - |Collect(acc + ev[0].chunk, code, ev[1..]).1|;
      AllReady(ev[1..][..k]) &&
      Collect(acc + ev[0].chunk, code, ev[1..]).0.value == (acc + ev[0].chunk) + Chunks(ev[1..][..k])
    ensures var k := |ev| - |Collect(acc, code, ev).1|;
      AllReady(ev[..k]) && Collect(acc, code, ev).0.value == acc + Chunks(ev[..k])
  {
    CollectStep(acc, code, ev);
    var res := Collect(acc + ev[0].chunk, code, ev[1..]);
    ReadOneMore(acc, ev, res.0.value, |ev| - |res.1|);
  }

  /** A reply Collect returns is `acc` followed by the chunks of the k events it consumed, all Ready. */
  lemma {:induction false} CollectOk(acc: Bytes, code: Status, ev: seq<Event>)
    requires Collect(acc, code, ev).0.Ok?
    ensures var k := |ev| - |Collect(acc, code, ev).1|;
      AllReady(ev[..k]) && Collect(acc, code, ev).0.value == acc + Chunks(ev[..k])
    decreases |ev|
  {
    if ResponseComplete(acc) {
      CollectOkDone(acc, code, ev);
    } else {
      CollectReads(acc, code, ev);
      CollectStep(acc, code, ev);
      CollectOk(acc + ev[0].chunk, code, ev[1..]);
      CollectOkMore(acc, code, ev);
    }
  }

  /**
   * When Collect times out, every event it consumed was Ready except the last,
   * which timed out, unless the script ran out first.
   */
  lemma {:induction false} CollectErr(acc: Bytes, code: Status, ev: seq<Event>)
    requires Collect(acc, code, ev).0.Err?
    ensures var rest := Collect(acc, code, ev).1;
      var k := |ev| - |rest|;
      (rest == [] && AllReady(ev)) || (0 < k && ev[k - 1].TimedOut? && AllReady(ev[..k - 1]))
    decreases |ev|
  {
    if ev != [] && ev[0].Ready? {
      CollectErr(acc + ev[0].chunk, code, ev[1..]);
      var rest := Collect(acc, code, ev).1;
      var k := |ev| - |rest|;
      if rest == [] && AllReady(ev[1..]) {
        forall i | 0 <= i < |ev|
          ensures ev[i].Ready?
        {
          if i > 0 {
            assert ev[i] == ev[1..][i - 1];
          }
        }
      } else {
        assert ev[k - 1] == ev[1..][k - 2];
        if k > 1 {
          AllReadyFront(ev, k - 1);
        }
      }
    }
  }

  /**
   * Collect stops at the first complete buffer: none of the buffers it held
   * before its result (and none at all on the error path) was complete.
   */
  lemma {:induction false} CollectNotEarly(acc: Bytes, code: Status, ev: seq<Event>, j: int)
    requires 0 <= j <= |ev| - |Collect(acc, code, ev).1|
    requires Collect(acc, code, ev).0.Ok? ==> j < |ev| - |Collect(acc, code, ev).1|
    ensures !ResponseComplete(acc + Chunks(ev[..j]))
    decreases |ev|
  {
    if j == 0 {
      assert acc + Chunks(ev[..0]) == acc;
    } else if ev[0].TimedOut? {
      ChunksFront(ev, 1);
      assert acc + Chunks(ev[..j]) == acc;
    } else {
      CollectNotEarly(acc + ev[0].chunk, code, ev[1..], j - 1);
      ChunksFront(ev, j);
      assert acc + Chunks(ev[..j]) == (acc + ev[0].chunk) + Chunks(ev[1..][..j - 1]);
    }
  }

  /** How many events Assemble consumed. */
  function Consumed(reg: Registry, ev: seq<Event>): nat
  {
    |ev| - |Assemble(reg, ev).1|
  }

  /**
   * A reply that Assemble returns consists of the chunks of the first k >= 1
   * events read, all of them Ready.
   */
  lemma AssembleOk(reg: Registry, ev: seq<Event>)
    requires Assemble(reg, ev).0.Ok?
    ensures 1 <= Consumed(reg, ev) && AllReady(ev[..Consumed(reg, ev)])
    ensures Assemble(reg, ev).0.value == Chunks(ev[..Consumed(reg, ev)])
  {
    if GetStatus(ev[0].chunk).value in reg.terminal {
      TerminalChunks(reg, ev);
    } else {
      PreliminaryChunks(reg, ev);
    }
  }

  lemma TerminalChunks(reg: Registry, ev: seq<Event>)
    requires ev != [] && ev[0].Ready? && GetStatus(ev[0].chunk).Some?
    requires GetStatus(ev[0].chunk).value in reg.terminal
    ensures Consumed(reg, ev) == 1 && AllReady(ev[..1])
    ensures Assemble(reg, ev).0 == Ok(Chunks(ev[..1]))
  {
    var first := ev[0].chunk;
    assert ev == [Ready(first)] + ev[1..];
    TerminalFirstChunk(reg, first, ev[1..]);
    ChunksFront(ev, 1);
    assert ev[1..][..0] == [];
    assert first + [] == first;
  }

  lemma PreliminaryChunks(reg: Registry, ev: seq<Event>)
    requires ev != [] && ev[0].Ready? && GetStatus(ev[0].chunk).Some?
    requires GetStatus(ev[0].chunk).value !in reg.terminal && Assemble(reg, ev).0.Ok?
    ensures 1 <= Consumed(reg, ev) && AllReady(ev[..Consumed(reg, ev)])
    ensures Assemble(reg, ev).0.value == Chunks(ev[..Consumed(reg, ev)])
  {
    var first := ev[0].chunk;
    var code := GetStatus(first).value;
    AssemblePreliminary(reg, ev);
    var res := Collect(first, code, ev[1..]);
    CollectOk(first, code, ev[1..]);
    var k := |ev| - |res.1|;
    assert Consumed(reg, ev) == k;
    assert k - 1 == |ev[1..]| - |res.1|;
    assert AllReady(ev[1..][..k - 1]) && res.0.value == first + Chunks(ev[1..][..k - 1]);
    ChunksFront(ev, k);
    AllReadyFront(ev, k);
  }

  /**
   * After a preliminary first chunk, Assemble is the loop that starts from
   * it, and a reply it returns starts with that chunk and is complete.
   */
  lemma AssemblePreliminary(reg: Registry, ev: seq<Event>)
    requires ev != [] && ev[0].Ready? && GetStatus(ev[0].chunk).Some?
    requires GetStatus(ev[0].chunk).value !in reg.terminal
    ensures Assemble(reg, ev) == Collect(ev[0].chunk, GetStatus(ev[0].chunk).value, ev[1..])
    ensures Assemble(reg, ev).0.Ok? ==>
      StartsWith(Assemble(reg, ev).0.value, ev[0].chunk) &&
      ResponseComplete(Assemble(reg, ev).0.value)
  {
  }

  /**
   * With a preliminary first chunk, Assemble reads on until the buffer is
   * complete and not one chunk longer: no shorter run of the chunks it read
   * was complete.
   */
  lemma AssembleNotEarly(reg: Registry, ev: seq<Event>, j: int)
    requires Assemble(reg, ev).0.Ok? && ev[0].Ready?
    requires GetStatus(ev[0].chunk).Some? && GetStatus(ev[0].chunk).value !in reg.terminal
    requires 1 <= j < Consumed(reg, ev)
    ensures !ResponseComplete(Chunks(ev[..j]))
  {
    var first := ev[0].chunk;
    CollectNotEarly(first, GetStatus(first).value, ev[1..], j - 1);
    ChunksFront(ev, j);
  }

  /**
   * How Assemble fails: a wait that times out before any chunk gives
   * Timeout(None) after consuming at most that one event; a first chunk
   * without a status gives MalformedStatus after one read; any later timeout
   * carries the first chunk's status.
   */
  lemma AssembleErr(reg: Registry, ev: seq<Event>)
    requires Assemble(reg, ev).0.Err?
    ensures var (r, rest) := Assemble(reg, ev);
      ((ev == [] || ev[0].TimedOut?) && r.error == Timeout(None) && rest == (if ev == [] then [] else ev[1..])) ||
      (ev != [] && ev[0].Ready? && GetStatus(ev[0].chunk).None? && r.error == MalformedStatus && rest == ev[1..]) ||
      (ev != [] && ev[0].Ready? && GetStatus(ev[0].chunk).Some? &&
        GetStatus(ev[0].chunk).value !in reg.terminal &&
        r.error == Timeout(Some(GetStatus(ev[0].chunk).value)))
  {
  }

  /** No wait succeeds: the reply is a timeout with no status and no read happens. */
  lemma FirstWaitTimesOut(reg: Registry, ev: seq<Event>)
    requires ev == [] || ev[0] == TimedOut
    ensures Assemble(reg, ev) == (Err(Timeout(None)), if ev == [] then [] else ev[1..])
  {
  }

  /**
   * A first chunk whose status the registry calls complete is returned as it
   * is after one read, whether or not it ends in CRLF.
   */
  lemma TerminalFirstChunk(reg: Registry, c: Bytes, ev: seq<Event>)
    requires GetStatus(c).Some? && GetStatus(c).value in reg.terminal
    ensures Assemble(reg, [Ready(c)] + ev) == (Ok(c), ev)
  {
    assert ([Ready(c)] + ev)[1..] == ev;
  }

  /**
   * A multi-line reply in two chunks: a preliminary status line, then a body
   * holding a "250" line and ending in CRLF. The reply is the two chunks
   * joined, and the events after them are left unread.
   */
  lemma TwoChunkReply(reg: Registry, code: Status, text: Bytes, body: Bytes, tail: Bytes, rest: seq<Event>)
    requires code !in reg.terminal && code != 250
    requires forall i :: 0 <= i < |text| ==> text[i] != CR
    ensures var first := StatusBytes(code) + text + CRLF;
      var second := body + CRLF_END_STATUS + tail + CRLF;
      Assemble(reg, [Ready(first), Ready(second)] + rest) == (Ok(first + second), rest)
  {
    var first := StatusBytes(code) + text + CRLF;
    var second := body + CRLF_END_STATUS + tail + CRLF;
    GetStatusOfStatusBytes(code, text + CRLF);
    assert StatusBytes(code) + (text + CRLF) == first;
    forall i | 0 <= i < |first| - 2
      ensures first[i] != CR
    {
      if i >= 3 {
        assert first[i] == text[i - 3];
      }
    }
    NoLineBreakBefore(first, |first| - 2);
    assert first[..3] == StatusBytes(code);
    assert StatusBytes(code) != END_STATUS by {
      GetStatusOfStatusBytes(code, []);
      GetStatusOfStatusBytes(250, []);
      assert StatusBytes(250) == END_STATUS;
    }
    assert !ResponseComplete(first);
    assert first + second == (first + body) + CRLF_END_STATUS + tail + CRLF;
    BodyLineCompletes(first + body, tail);
    var ev := [Ready(first), Ready(second)] + rest;
    assert ev[1..] == [Ready(second)] + rest;
    assert ev[1..][1..] == rest;
    assert GetStatus(first) == Some(code);
    assert Assemble(reg, ev) == Collect(first, code, ev[1..]);
    assert Collect(first, code, ev[1..]) == Collect(first + second, code, rest);
    assert ResponseComplete(first + second);
  }
}
