/**
 * The byte-level checks a DICT client (RFC 2229, section 2.4) makes on a reply:
 * reading the three-digit status code at its start and deciding whether a
 * multi-line reply has been received in full.
 */
module Framing {
  import opened Wrappers

  /** One byte of a reply, as `recv` delivers it. */
  type byte = b: int | 0 <= b < 256

  type Bytes = seq<byte>

  /** A status code: three decimal digits. */
  type Status = c: int | 0 <= c < 1000

  const CR: byte := 13
  const LF: byte := 10
  const CRLF: Bytes := [CR, LF]

  /** ASCII "250", the status of the line that ends a multi-line reply. */
  const END_STATUS: Bytes := [50, 53, 48]

  /** ASCII "\r\n250": the end status at the start of a line other than the first. */
  const CRLF_END_STATUS: Bytes := CRLF + END_STATUS

  /** Python's `b.startswith(p)`. */
  predicate StartsWith(b: Bytes, p: Bytes)
  {
    |p| <= |b| && b[..|p|] == p
  }

  lemma StartsWithShorter(b: Bytes, p: Bytes, q: Bytes)
    requires StartsWith(b, p + q)
    ensures StartsWith(b, p)
  {
    assert b[..|p|] == b[..|p + q|][..|p|] == (p + q)[..|p|] == p;
  }

  /** `p` occurs in `b` starting at offset `i`. */
  predicate OccursAt(b: Bytes, p: Bytes, i: int)
  {
    0 <= i && i + |p| <= |b| && b[i..i + |p|] == p
  }

  /** Python's `p in b` on bytes, as a scan from the left. */
  predicate Contains(b: Bytes, p: Bytes)
    decreases |b|
  {
    StartsWith(b, p) || (|b| > 0 && Contains(b[1..], p))
  }

  /** The scan finds `p` exactly when `p` occurs somewhere in `b`. */
  lemma {:induction false} ContainsIff(b: Bytes, p: Bytes)
    ensures Contains(b, p) <==> exists i :: OccursAt(b, p, i)
  {
    if StartsWith(b, p) {
      assert OccursAt(b, p, 0);
    }
    if exists i :: OccursAt(b, p, i) {
      var i :| OccursAt(b, p, i);
      if i == 0 {
        assert StartsWith(b, p);
      } else {
        assert b[1..][i - 1..i - 1 + |p|] == b[i..i + |p|];
        assert OccursAt(b[1..], p, i - 1);
        ContainsIff(b[1..], p);
      }
    }
    if |b| > 0 && Contains(b[1..], p) {
      ContainsIff(b[1..], p);
      var i :| OccursAt(b[1..], p, i);
      assert b[1..][i..i + |p|] == b[i + 1..i + 1 + |p|];
      assert OccursAt(b, p, i + 1);
    }
  }

  /** Python's `b[-2:]`: the last two bytes, or all of `b` when it is shorter. */
  function LastTwo(b: Bytes): Bytes
  {
    if |b| >= 2 then b[|b| - 2..] else b
  }

  /**
   * Whether a multi-line reply is complete: it starts with "250" or holds
   * "\r\n250" anywhere, and its last two bytes are CRLF. The "250" line is
   * searched for anywhere, not only as the last line.
   */
  predicate ResponseComplete(b: Bytes)
  {
    (StartsWith(b, END_STATUS) || Contains(b, CRLF_END_STATUS)) && LastTwo(b) == CRLF
  }

  /** ResponseComplete stated without the scan and without slicing tricks. */
  lemma ResponseCompleteIff(b: Bytes)
    ensures ResponseComplete(b) <==>
      (StartsWith(b, END_STATUS) || exists i :: OccursAt(b, CRLF_END_STATUS, i)) &&
      |b| >= 2 && b[|b| - 2] == CR && b[|b| - 1] == LF
  {
    ContainsIff(b, CRLF_END_STATUS);
  }

  /**
   * A line starting with "250" anywhere after the first line, followed by
   * anything that ends in CRLF, makes the buffer count as complete, even when
   * that line is part of a definition's text.
   */
  lemma BodyLineCompletes(head: Bytes, rest: Bytes)
    ensures ResponseComplete(head + CRLF_END_STATUS + rest + CRLF)
  {
    var b := head + CRLF_END_STATUS + rest + CRLF;
    assert b[|head|..|head| + |CRLF_END_STATUS|] == CRLF_END_STATUS;
    assert OccursAt(b, CRLF_END_STATUS, |head|);
    ContainsIff(b, CRLF_END_STATUS);
    assert b[|b| - 2..] == CRLF;
  }

  /** A buffer whose only CR is among its last two bytes holds no "\r\n250". */
  lemma NoLineBreakBefore(b: Bytes, n: int)
    requires 0 <= n <= |b| && |b| <= n + 2
    requires forall i :: 0 <= i < n ==> b[i] != CR
    ensures !Contains(b, CRLF_END_STATUS)
  {
    forall i | 0 <= i
      ensures !OccursAt(b, CRLF_END_STATUS, i)
    {
      if i + |CRLF_END_STATUS| <= |b| {
        assert b[i..i + |CRLF_END_STATUS|][0] == b[i] != CR;
      }
    }
    ContainsIff(b, CRLF_END_STATUS);
  }

  predicate IsDigit(x: byte)
  {
    48 <= x <= 57
  }

  /** The ASCII digits of a status code, most significant first. */
  function StatusBytes(c: Status): (s: Bytes)
    ensures |s| == 3 && IsDigit(s[0]) && IsDigit(s[1]) && IsDigit(s[2])
  {
    [48 + c / 100, 48 + c / 10 % 10, 48 + c % 10]
  }

  /**
   * The status code of a reply: its first three bytes read as a decimal
   * number, or None when they are not three ASCII digits.
   */
  function GetStatus(b: Bytes): (r: Option<Status>)
    ensures r.Some? <==> |b| >= 3 && IsDigit(b[0]) && IsDigit(b[1]) && IsDigit(b[2])
  {
    if |b| >= 3 && IsDigit(b[0]) && IsDigit(b[1]) && IsDigit(b[2]) then
      Some(100 * (b[0] as int - 48) + 10 * (b[1] as int - 48) + (b[2] as int - 48))
    else
      None
  }

  /** A status that was read is spelled by the first three bytes. */
  lemma GetStatusDigits(b: Bytes)
    requires GetStatus(b).Some?
    ensures StatusBytes(GetStatus(b).value) == b[..3]
  {
    var d0, d1, d2 := b[0] as int - 48, b[1] as int - 48, b[2] as int - 48;
    var c := 100 * d0 + 10 * d1 + d2;
    assert GetStatus(b).value == c;
    assert c / 100 == d0 && c / 10 % 10 == d1 && c % 10 == d2;
  }

  /** Reading back the digits of a code at the start of a reply gives the code. */
  lemma GetStatusOfStatusBytes(c: Status, rest: Bytes)
    ensures GetStatus(StatusBytes(c) + rest) == Some(c)
  {
    var b := StatusBytes(c) + rest;
    assert b[..3] == StatusBytes(c);
    var d0, d1, d2 := c / 100, c / 10 % 10, c % 10;
    assert 100 * d0 + 10 * d1 + d2 == c;
  }

  /** The status code depends only on the first three bytes. */
  lemma GetStatusOfPrefix(b: Bytes, more: Bytes)
    requires |b| >= 3
    ensures GetStatus(b + more) == GetStatus(b)
  {
    assert (b + more)[..3] == b[..3];
    assert (b + more)[0] == b[0] && (b + more)[1] == b[1] && (b + more)[2] == b[2];
  }
}
