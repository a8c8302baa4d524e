/**
 * `trim_string_tail` of src/Tag.c: overwrite the trailing newlines,
 * carriage returns and spaces of a NUL-terminated string with NUL, in place.
 *
 * The C loop has no lower bound on its index: on a string made only of
 * those characters it walks to index -1 and reads the byte before the
 * string. `ScanAsWritten` models that loop as written; `TrimStringTail` is
 * the loop with the missing `idx >= 0` guard, which behaves identically on
 * every string holding some other character.
 */
module TrimTail {
  import opened CStrings

  /** Characters 10, 13 and 32: the ones the loop discards. */
  predicate IsTrailingSpace(c: char)
  {
    c == '\n' || c == '\r' || c == ' '
  }

  /**
   * The length of the first `n` characters of `s` without their maximal
   * trailing run of discarded characters: a scan down from index `n - 1`.
   */
  function KeptLength(s: string, n: nat): (k: nat)
    requires n <= |s|
    ensures k <= n
    ensures forall i :: k <= i < n ==> IsTrailingSpace(s[i])
    ensures k == 0 || !IsTrailingSpace(s[k - 1])
  {
    if n == 0 || !IsTrailingSpace(s[n - 1]) then n else KeptLength(s, n - 1)
  }

  /** The string without its maximal trailing run of discarded characters. */
  function TrimEnd(s: string): (t: string)
    ensures |t| <= |s| && t == s[..|t|]
    ensures forall i :: |t| <= i < |s| ==> IsTrailingSpace(s[i])
    ensures t == [] || !IsTrailingSpace(t[|t| - 1])
  {
    s[..KeptLength(s, |s|)]
  }

  /**
   * The three properties in the contract of `TrimEnd` determine its result:
   * it removes exactly the maximal trailing run and nothing else.
   */
  lemma TrimEndUnique(s: string, p: string)
    requires |p| <= |s| && p == s[..|p|]
    requires forall i :: |p| <= i < |s| ==> IsTrailingSpace(s[i])
    requires p == [] || !IsTrailingSpace(p[|p| - 1])
    ensures p == TrimEnd(s)
  {
  }

  /** Trimming twice trims no more than trimming once. */
  lemma TrimEndIdempotent(s: string)
    ensures TrimEnd(TrimEnd(s)) == TrimEnd(s)
  {
    var t := TrimEnd(s);
    TrimEndUnique(t, t);
  }

  /** A string holding some character other than the discarded ones keeps a non-empty prefix. */
  lemma TrimEndKeepsLastOther(s: string, k: nat)
    requires k < |s| && !IsTrailingSpace(s[k])
    ensures k < |TrimEnd(s)|
  {
  }

  /** Where the loop of the C code ends: at a kept index, or by reading before the string. */
  datatype ScanEnd = StopsAt(idx: nat) | ReadsBeforeStart

  /**
   * The loop of `trim_string_tail` as written, scanning down from `idx`
   * with no `idx >= 0` guard: at -1 it reads `message[-1]`, outside the string.
   */
  function ScanAsWritten(s: string, idx: int): (r: ScanEnd)
    requires -1 <= idx < |s|
    ensures r.StopsAt? ==> r.idx <= idx && !IsTrailingSpace(s[r.idx])
    decreases idx + 1
  {
    if idx < 0 then ReadsBeforeStart
    else if IsTrailingSpace(s[idx]) then ScanAsWritten(s, idx - 1)
    else StopsAt(idx)
  }

  /** On a string of discarded characters only, the loop as written reads before the string. */
  lemma {:induction false} ScanAsWrittenReadsBeforeStart(s: string, idx: int)
    requires -1 <= idx < |s|
    requires forall i :: 0 <= i <= idx ==> IsTrailingSpace(s[i])
    ensures ScanAsWritten(s, idx) == ReadsBeforeStart
    decreases idx + 1
  {
    if idx >= 0 {
      ScanAsWrittenReadsBeforeStart(s, idx - 1);
    }
  }

  /** The smallest such input: a string that is one newline. */
  lemma NewlineReadsBeforeStart()
    ensures ScanAsWritten("\n", 0) == ReadsBeforeStart
  {
    ScanAsWrittenReadsBeforeStart("\n", 0);
  }

  /**
   * On every string holding some other character the loop as written stops
   * just before the part `TrimEnd` removes, so there the guarded loop and
   * the C loop agree.
   */
  lemma {:induction false} ScanAsWrittenAgrees(s: string, idx: int)
    requires -1 <= idx < |s|
    requires exists k :: 0 <= k <= idx && !IsTrailingSpace(s[k])
    ensures ScanAsWritten(s, idx) == StopsAt(|TrimEnd(s[..idx + 1])| - 1)
    decreases idx + 1
  {
    var k :| 0 <= k <= idx && !IsTrailingSpace(s[k]);
    var p := s[..idx + 1];
    if IsTrailingSpace(s[idx]) {
      assert k < idx;
      ScanAsWrittenAgrees(s, idx - 1);
      assert p[..idx] == s[..idx];
      assert TrimEnd(p) == TrimEnd(s[..idx]);
    } else {
      assert TrimEnd(p) == p;
    }
  }

  /** The buffer with the bytes from `from` up to `to` overwritten with NUL. */
  function NulFill(buf: seq<char>, from: nat, to: nat): (r: seq<char>)
    requires from <= to <= |buf|
    ensures |r| == |buf|
    ensures forall i :: 0 <= i < |buf| ==> r[i] == if from <= i < to then '\0' else buf[i]
  {
    buf[..from] + seq(to - from, _ => '\0') + buf[to..]
  }

  /**
   * The buffer `trim_string_tail` leaves: the discarded characters at the end
   * of the string become NUL and every other byte is kept.
   */
  function TrimmedBuffer(buf: seq<char>): (r: seq<char>)
    requires '\0' in buf
    ensures |r| == |buf|
  {
    NulFill(buf, |TrimEnd(CString(buf))|, StrLen(buf))
  }

  /** Trimming a buffer that was already trimmed leaves it as it is. */
  lemma TrimmedBufferIdempotent(buf: seq<char>)
    requires '\0' in buf
    ensures '\0' in TrimmedBuffer(buf)
    ensures TrimmedBuffer(TrimmedBuffer(buf)) == TrimmedBuffer(buf)
  {
    TrimmedBufferHoldsTrimmed(buf);
    TrimEndIdempotent(CString(buf));
  }

  /** Overwriting part of a string's bytes with NUL cuts the string where the overwrite starts. */
  lemma NulFillCuts(buf: seq<char>, from: nat)
    requires '\0' in buf && from <= StrLen(buf)
    ensures '\0' in NulFill(buf, from, StrLen(buf))
    ensures CString(NulFill(buf, from, StrLen(buf))) == buf[..from]
  {
    var n := StrLen(buf);
    var r := NulFill(buf, from, n);
    assert StrLen(r) == from by {
      assert r[from] == '\0';
      assert forall j :: 0 <= j < from ==> r[j] == buf[j];
    }
    assert r[..from] == buf[..from] by {
      assert forall j :: 0 <= j < from ==> r[j] == buf[j];
    }
  }

  /** The string the trimmed buffer holds is the trimmed string. */
  lemma TrimmedBufferHoldsTrimmed(buf: seq<char>)
    requires '\0' in buf
    ensures '\0' in TrimmedBuffer(buf)
    ensures CString(TrimmedBuffer(buf)) == TrimEnd(CString(buf))
  {
    var s := CString(buf);
    var t := TrimEnd(s);
    NulFillCuts(buf, |t|);
    assert t == buf[..|t|];
  }

  /**
   * A downward scan of the string that passed only discarded characters and
   * stopped at index -1 or at a kept character stopped just before the part
   * `TrimEnd` removes.
   */
  lemma ScanStopsAtTrimmedEnd(buf: seq<char>, idx: int)
    requires '\0' in buf && -1 <= idx < StrLen(buf)
    requires forall i :: idx < i < StrLen(buf) ==> IsTrailingSpace(buf[i])
    requires idx < 0 || !IsTrailingSpace(buf[idx])
    ensures idx + 1 == |TrimEnd(CString(buf))|
  {
    var s := CString(buf);
    TrimEndUnique(s, s[..idx + 1]);
  }

  /** `trim_string_tail` with the `idx >= 0` guard. */
  method TrimStringTail(message: array<char>)
    requires '\0' in message[..]
    modifies message
    ensures message[..] == TrimmedBuffer(old(message[..]))
  {
    ghost var buf := message[..];
    var len := StrLen(message[..]);
    var idx := -1;
    if len > 0 {
      idx := len - 1;
      while idx >= 0 && IsTrailingSpace(message[idx])
        invariant -1 <= idx < len
        invariant forall i :: idx < i < len ==> IsTrailingSpace(buf[i])
        invariant forall i :: 0 <= i < message.Length ==>
                    message[i] == if idx < i < len then '\0' else buf[i]
      {
        message[idx] := '\0';
        idx := idx - 1;
      }
    }
    ScanStopsAtTrimmedEnd(buf, idx);
    assert message[..] == NulFill(buf, idx + 1, len);
  }
}
