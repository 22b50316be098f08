/**
 * UnixNativeDispatcher (macOS): the rules the system-call wrappers add around the
 * native calls. A native call is represented by what it returned and the errno it
 * left; a sequence of such responses stands for the successive calls a retry loop
 * makes, and a loop that would need more calls than the sequence holds reports
 * that it ran out (None) instead of looping on.
 */
module UnixNativeDispatcher {
  import opened Wrappers
  import opened Errno
  import opened JavaInts
  import FFIUtils

  type Byte = FFIUtils.Byte

  const PATH_MAX: int := 1024

  /** throwUnixExceptionIf(match): a UnixException carrying errno when `match` holds. */
  function ThrowUnixExceptionIf(matched: bool, errno: int): (r: Option<Exception>)
    ensures r.Some? <==> matched
    ensures r.Some? ==> r.value == UnixException(errno)
  {
    if matched then Some(UnixException(errno)) else None
  }

  /** checkErrno(expected): a UnixException carrying errno unless errno is `expected`. */
  function CheckErrno(errno: int, expected: int): (r: Option<Exception>)
    ensures r.None? <==> errno == expected
    ensures r.Some? ==> r.value == UnixException(errno)
  {
    FFIUtils.CheckErrno(errno, expected, UnixException(errno))
  }

  /** copyToNativeBytes(ar): the same NUL-termination rule as FFIUtils.copyToNativeBytes. */
  method CopyToNativeBytes(ar: seq<Byte>) returns (r: Result<seq<Byte>>)
    ensures r.Err? <==> |ar| == 0
    ensures r.Err? ==> r.error == IndexOutOfBoundsException
    ensures r.Ok? ==> r.value == FFIUtils.NulTerminated(ar)
  {
    r := FFIUtils.CopyToNativeBytes(ar);
  }

  // ---- restartable ----

  /** One native call's outcome: its return value and the errno it left. */
  datatype Response = Response(rv: int, errno: int)

  /**
   * restartable(fn) over the successive calls `rs`: the outcome and the number of
   * calls made. A call is repeated while it returns -1 with errno EINTR; the first
   * other return value is the result, and -1 with another errno throws.
   */
  function Restart(rs: seq<Response>): (r: (Option<Result<int>>, nat))
    ensures r.1 <= |rs|
    ensures forall k :: 0 <= k < r.1 - 1 ==> rs[k].rv == -1 && rs[k].errno == EINTR
    ensures r.0.None? ==> r.1 == |rs| && forall k :: 0 <= k < |rs| ==> rs[k].rv == -1 && rs[k].errno == EINTR
    ensures r.0.Some? ==> r.1 >= 1
    ensures r.0.Some? && r.0.value.Ok? ==> r.0.value.value == rs[r.1 - 1].rv != -1
    ensures r.0.Some? && r.0.value.Err? ==>
              rs[r.1 - 1].rv == -1 && rs[r.1 - 1].errno != EINTR && r.0.value.error == UnixException(rs[r.1 - 1].errno)
  {
    if rs == [] then (None, 0)
    else if rs[0].rv == -1 then
      if rs[0].errno != EINTR then (Some(Err(UnixException(rs[0].errno))), 1)
      else
        var (r, used) := Restart(rs[1..]);
        (r, used + 1)
    else (Some(Ok(rs[0].rv)), 1)
  }

  /** restartable(fn), the do-while loop. */
  method Restartable(rs: seq<Response>) returns (r: Option<Result<int>>, used: nat)
    ensures (r, used) == Restart(rs)
  {
    var rv := -1;
    used := 0;
    while true
      invariant used <= |rs|
      invariant Restart(rs) == (var (t, u) := Restart(rs[used..]); (t, u + used))
      decreases |rs| - used
    {
      if used == |rs| {
        return None, used;
      }
      rv := rs[used].rv;
      used := used + 1;
      if rv == -1 {
        var e := CheckErrno(rs[used - 1].errno, EINTR);
        if e.Some? {
          return Some(Err(e.value)), used;
        }
      }
      if rv != -1 {
        return Some(Ok(rv)), used;
      }
      assert rs[used - 1..][1..] == rs[used..];
    }
  }

  // ---- hexDump ----

  /** The digit of a value below 16, as %X writes it. */
  function HexDigit(v: nat): char
    requires v < 16
  {
    if v < 10 then ('0' as int + v) as char else ('A' as int + v - 10) as char
  }

  /** %02X of a byte: the two hex digits of its unsigned value. */
  function Hex2(b: Byte): (s: string)
    ensures |s| == 2
  {
    var u := (b as int + 256) % 256;
    [HexDigit(u / 16), HexDigit(u % 16)]
  }

  /** What follows byte `i`: a line break after every 32nd byte, a comma after every other 8th, a space otherwise. */
  function Separator(i: nat): string
  {
    if i % 32 == 31 then "\n" else if i % 8 == 7 then "," else " "
  }

  /** The text hexDump writes for bytes `bs`. */
  function HexText(bs: seq<Byte>): (s: string)
    ensures |s| == 3 * |bs|
  {
    if bs == [] then "" else HexText(bs[..|bs| - 1]) + Hex2(bs[|bs| - 1]) + Separator(|bs| - 1)
  }

  /** hexDump(buffer, size): the loop appending each byte's digits and separator. */
  method HexDump(bs: seq<Byte>) returns (s: string)
    ensures s == HexText(bs)
  {
    var sb := "";
    for i := 0 to |bs|
      invariant sb == HexText(bs[..i])
    {
      assert bs[..i + 1][..i] == bs[..i];
      sb := sb + Hex2(bs[i]);
      sb := sb + Separator(i);
    }
    assert bs[..|bs|] == bs;
    return sb;
  }

  /** The value of a hex digit as %X writes it. */
  function DigitValue(c: char): nat
  {
    if '0' <= c <= '9' then c as nat - '0' as nat
    else if 'A' <= c <= 'F' then c as nat - 'A' as nat + 10
    else 0
  }

  /** Reads a byte back from its two digits. */
  function ParseHex2(s: string): int
    requires |s| == 2
  {
    var u := DigitValue(s[0]) * 16 + DigitValue(s[1]);
    if u >= 128 then u - 256 else u
  }

  /** Each byte's two digits read back as that byte. */
  lemma Hex2RoundTrip(b: Byte)
    ensures ParseHex2(Hex2(b)) == b
  {
    var u := (b as int + 256) % 256;
    var hi, lo := u / 16, u % 16;
    assert u == hi * 16 + lo;
    DigitRoundTrip(hi);
    DigitRoundTrip(lo);
  }

  /** Each digit reads back as its value. */
  lemma DigitRoundTrip(v: nat)
    requires v < 16
    ensures DigitValue(HexDigit(v)) == v
  {
  }

  /** Byte `i` of the dump sits at offset 3 * i: its two digits, then its separator. */
  lemma {:induction false} HexTextAt(bs: seq<Byte>, i: nat)
    requires i < |bs|
    ensures HexText(bs)[3 * i .. 3 * i + 3] == Hex2(bs[i]) + Separator(i)
  {
    var n := |bs| - 1;
    var pre := HexText(bs[..n]);
    var last := Hex2(bs[n]) + Separator(n);
    assert HexText(bs) == pre + last;
    if i < n {
      HexTextAt(bs[..n], i);
      assert bs[..n][i] == bs[i];
      SliceOfPrefix(pre, last, 3 * i, 3 * i + 3);
    } else {
      SliceOfSuffix(pre, last, 0, 3);
    }
  }

  /** A slice that lies within the first part of a concatenation. */
  lemma SliceOfPrefix(a: string, b: string, lo: nat, hi: nat)
    requires lo <= hi <= |a|
    ensures (a + b)[lo..hi] == a[lo..hi]
  {
  }

  /** A slice that lies within the second part of a concatenation. */
  lemma SliceOfSuffix(a: string, b: string, lo: nat, hi: nat)
    requires lo <= hi <= |b|
    ensures (a + b)[|a| + lo .. |a| + hi] == b[lo..hi]
  {
  }

  /** The dump loses nothing: every byte can be read back from its place in the text. */
  lemma HexDumpDecodes(bs: seq<Byte>, i: nat)
    requires i < |bs|
    ensures ParseHex2(HexText(bs)[3 * i .. 3 * i + 2]) == bs[i]
  {
    HexTextAt(bs, i);
    assert HexText(bs)[3 * i .. 3 * i + 2] == HexText(bs)[3 * i .. 3 * i + 3][..2];
    Hex2RoundTrip(bs[i]);
  }

  // ---- timeval / timespec ----

  /** A struct timeval or timespec: seconds and the sub-second part, stored as an int. */
  datatype TimeParts = TimeParts(sec: int, frac: int)

  /** utimes/futimes/lutimes: microseconds split by Java's truncating / and %, the remainder cast to int. */
  function ToTimeval(t: int): (r: TimeParts)
    requires InLong(t)
    ensures r.sec * 1000_000 + r.frac == t
    ensures -1000_000 < r.frac < 1000_000
    ensures t >= 0 ==> r.frac >= 0
  {
    JDivRem(t, 1000_000);
    TimeParts(JDiv(t, 1000_000), ToInt(JRem(t, 1000_000)))
  }

  /** futimens: nanoseconds split the same way by 1_000_000_000. */
  function ToTimespec(t: int): (r: TimeParts)
    requires InLong(t)
    ensures r.sec * 1000_000_000 + r.frac == t
    ensures -1000_000_000 < r.frac < 1000_000_000
    ensures t >= 0 ==> r.frac >= 0
  {
    JDivRem(t, 1000_000_000);
    TimeParts(JDiv(t, 1000_000_000), ToInt(JRem(t, 1000_000_000)))
  }

  // ---- readlink ----

  /**
   * readlink(path), after the native call returned `len` into a buffer of
   * PATH_MAX + 1 bytes: -1 throws errno, a full buffer means the target may have
   * been cut short and throws ENAMETOOLONG, anything else is the target's bytes.
   * The native readlink returns -1 or a length no larger than the buffer.
   */
  function Readlink(len: int, buf: seq<Byte>, errno: int): (r: Result<seq<Byte>>)
    requires |buf| == PATH_MAX + 1
    requires len == -1 || 0 <= len <= |buf|
    ensures len == -1 ==> r == Err(UnixException(errno))
    ensures len == |buf| ==> r == Err(UnixException(ENAMETOOLONG))
    ensures r.Ok? ==> |r.value| == len <= PATH_MAX && r.value == buf[..len]
  {
    if len == -1 then Err(UnixException(errno))
    else if len == |buf| then Err(UnixException(ENAMETOOLONG))
    else Ok(buf[..len])
  }

  // ---- getgrnam ----

  /** What getgrnam_r left behind: whether *result is NULL, whether gr_name is empty, and gr_gid. */
  datatype GroupEntry = GroupEntry(resultNull: bool, nameEmpty: bool, gid: int)

  /** The errno values getgrnam treats as "no such group", as written. */
  predicate NotFoundAsWritten(errno: int)
  {
    errno == 0 || errno == ENOENT || (errno == ESRCH && errno != EBADF && errno != EPERM)
  }

  /** The errno values that mean "no such group": no error, or one of the four not-found codes. */
  predicate NotFound(errno: int)
  {
    errno == 0 || errno == ENOENT || errno == ESRCH || errno == EBADF || errno == EPERM
  }

  /** As written, the last two tests change nothing, so EBADF and EPERM throw instead of meaning "no such group". */
  lemma NotFoundAsWrittenDiffers()
    ensures NotFoundAsWritten(ENOENT) && NotFoundAsWritten(ESRCH)
    ensures !NotFoundAsWritten(EBADF) && !NotFoundAsWritten(EPERM)
    ensures NotFound(EBADF) && NotFound(EPERM)
    ensures forall e :: NotFoundAsWritten(e) ==> NotFound(e)
  {
  }

  /** One pass of getgrnam's do-while loop: its outcome, or a retry; `used` counts the native calls it made. */
  datatype Pass = Done(r: Option<Result<int>>, used: nat) | Retry(used: nat)

  /**
   * The pass starting at the `pos`-th native call: restartable(getgrnam_r), then a
   * NULL result is classified by errno (ERANGE asks for a larger buffer) and a
   * found entry yields its gid, or -1 when its name is empty.
   */
  function GetgrPass(calls: seq<Response>, entries: seq<GroupEntry>, pos: nat): (p: Pass)
    requires |entries| == |calls| && pos <= |calls|
    ensures pos + p.used <= |calls|
    ensures p.Retry? ==> p.used >= 1
  {
    var (rr, used) := Restart(calls[pos..]);
    if rr.None? then Done(None, used)
    else if rr.value.Err? then Done(Some(Err(rr.value.error)), used)
    else
      var last := pos + used - 1;
      if rr.value.value != 0 || entries[last].resultNull then
        var errno := calls[last].errno;
        if NotFound(errno) then Done(Some(Ok(-1)), used)
        else if errno == ERANGE then Retry(used)
        else Done(Some(Err(UnixException(errno))), used)
      else Done(Some(Ok(if entries[last].nameEmpty then -1 else entries[last].gid)), used)
  }

  /** `n` copies of `x`. */
  function Repeat(x: int, n: nat): (r: seq<int>)
    ensures |r| == n
  {
    seq(n, _ => x)
  }

  /** getgrnam's outcome and the buffer length passed to each native call. */
  datatype Outcome = Outcome(r: Option<Result<int>>, lens: seq<int>)

  /** getgrnam from the `pos`-th native call on, with buffer length `bufLen`; each retry adds 1024 bytes. */
  function Getgr(bufLen: int, calls: seq<Response>, entries: seq<GroupEntry>, pos: nat): (o: Outcome)
    requires |entries| == |calls| && pos <= |calls|
    decreases |calls| - pos
  {
    match GetgrPass(calls, entries, pos)
    case Done(r, used) => Outcome(r, Repeat(bufLen, used))
    case Retry(used) =>
      var o := Getgr(bufLen + 1024, calls, entries, pos + used);
      Outcome(o.r, Repeat(bufLen, used) + o.lens)
  }

  /** The buffer length getgrnam starts with: sysconf's value, or 1024 when sysconf fails. */
  function InitialBufLen(sysconfMax: int): int
  {
    if sysconfMax == -1 then 1024 else sysconfMax
  }

  /** One pass of the do-while loop. */
  method GetgrnamPass(calls: seq<Response>, entries: seq<GroupEntry>, pos: nat) returns (p: Pass)
    requires |entries| == |calls| && pos <= |calls|
    ensures p == GetgrPass(calls, entries, pos)
  {
    var rr, used := Restartable(calls[pos..]);
    if rr.None? {
      return Done(None, used);
    }
    if rr.value.Err? {
      return Done(Some(Err(rr.value.error)), used);
    }
    var last := pos + used - 1;
    var rv := rr.value.value;
    if rv != 0 || entries[last].resultNull {
      var errno := calls[last].errno;
      if NotFound(errno) {
        return Done(Some(Ok(-1)), used);
      } else if errno == ERANGE {
        return Retry(used);
      } else {
        return Done(Some(Err(UnixException(errno))), used);
      }
    }
    return Done(Some(Ok(if entries[last].nameEmpty then -1 else entries[last].gid)), used);
  }

  /** getgrnam(name): the do-while loop that retries with a larger buffer. */
  method Getgrnam(sysconfMax: int, calls: seq<Response>, entries: seq<GroupEntry>) returns (r: Option<Result<int>>, lens: seq<int>)
    requires |entries| == |calls|
    ensures Outcome(r, lens) == Getgr(InitialBufLen(sysconfMax), calls, entries, 0)
  {
    ghost var whole := Getgr(InitialBufLen(sysconfMax), calls, entries, 0);
    var bufLen := InitialBufLen(sysconfMax);
    var pos := 0;
    lens := [];
    r := None;
    var retry := true;
    assert [] + whole.lens == whole.lens;
    while retry
      invariant pos <= |calls|
      invariant retry ==> Continues(whole, lens, bufLen, calls, entries, pos)
      invariant !retry ==> whole == Outcome(r, lens)
      decreases |calls| - pos, retry
    {
      var p := GetgrnamPass(calls, entries, pos);
      GetgrStep(whole, lens, bufLen, calls, entries, pos, p);
      lens := lens + Repeat(bufLen, p.used);
      if p.Done? {
        r := p.r;
        retry := false;
      } else {
        bufLen := bufLen + 1024;
        pos := pos + p.used;
      }
    }
  }

  /** After the calls that produced `lens`, getgrnam goes on from the `pos`-th call with buffer length `bufLen`. */
  ghost predicate Continues(whole: Outcome, lens: seq<int>, bufLen: int, calls: seq<Response>, entries: seq<GroupEntry>, pos: nat)
    requires |entries| == |calls| && pos <= |calls|
  {
    var rest := Getgr(bufLen, calls, entries, pos);
    whole == Outcome(rest.r, lens + rest.lens)
  }

  /** One pass of the loop keeps Continues, or ends with the whole outcome. */
  lemma GetgrStep(whole: Outcome, lens: seq<int>, bufLen: int, calls: seq<Response>, entries: seq<GroupEntry>, pos: nat, p: Pass)
    requires |entries| == |calls| && pos <= |calls|
    requires Continues(whole, lens, bufLen, calls, entries, pos)
    requires p == GetgrPass(calls, entries, pos)
    ensures p.Done? ==> whole == Outcome(p.r, lens + Repeat(bufLen, p.used))
    ensures p.Retry? ==> Continues(whole, lens + Repeat(bufLen, p.used), bufLen + 1024, calls, entries, pos + p.used)
  {
    var these := Repeat(bufLen, p.used);
    if p.Retry? {
      var o := Getgr(bufLen + 1024, calls, entries, pos + p.used);
      assert Getgr(bufLen, calls, entries, pos) == Outcome(o.r, these + o.lens);
      assert lens + (these + o.lens) == (lens + these) + o.lens;
    }
  }

  /**
   * The buffer lengths start at `b`, never fall below it, and from one call to the
   * next stay the same or grow by exactly 1024.
   */
  predicate GrowsFrom(lens: seq<int>, b: int)
  {
    (|lens| > 0 ==> lens[0] == b)
    && (forall k :: 0 <= k < |lens| ==> lens[k] >= b)
    && (forall k :: 0 <= k < |lens| - 1 ==> lens[k + 1] == lens[k] || lens[k + 1] == lens[k] + 1024)
  }

  /** Every native call gets a buffer at least as large as the first, growing by 1024 per retry. */
  lemma {:induction false} GetgrBufferGrows(bufLen: int, calls: seq<Response>, entries: seq<GroupEntry>, pos: nat)
    requires |entries| == |calls| && pos <= |calls|
    ensures GrowsFrom(Getgr(bufLen, calls, entries, pos).lens, bufLen)
    decreases |calls| - pos
  {
    var p := GetgrPass(calls, entries, pos);
    var lens := Getgr(bufLen, calls, entries, pos).lens;
    if p.Retry? {
      var more := Getgr(bufLen + 1024, calls, entries, pos + p.used).lens;
      assert lens == Repeat(bufLen, p.used) + more;
      GetgrBufferGrows(bufLen + 1024, calls, entries, pos + p.used);
      RetryGrows(bufLen, p.used, more);
    } else {
      assert lens == Repeat(bufLen, p.used);
    }
  }

  /** The lengths of one retried pass followed by lengths growing from 1024 more. */
  lemma RetryGrows(b: int, n: nat, more: seq<int>)
    requires n >= 1 && GrowsFrom(more, b + 1024)
    ensures GrowsFrom(Repeat(b, n) + more, b)
  {
    var lens := Repeat(b, n) + more;
    forall k | 0 <= k < |lens| - 1
      ensures lens[k + 1] == lens[k] || lens[k + 1] == lens[k] + 1024
    {
      if k + 1 == n {
        assert lens[k + 1] == more[0];
      } else if k + 1 > n {
        assert lens[k + 1] == more[k + 1 - n] && lens[k] == more[k - n];
      }
    }
  }

  /** A group whose entry comes back on the first call yields its gid; an empty name yields -1. */
  lemma GetgrFound(bufLen: int, e: GroupEntry)
    requires !e.resultNull
    ensures Getgr(bufLen, [Response(0, 0)], [e], 0) == Outcome(Some(Ok(if e.nameEmpty then -1 else e.gid)), [bufLen])
  {
    assert [Response(0, 0)][0..] == [Response(0, 0)];
    assert Restart([Response(0, 0)]) == (Some(Ok(0)), 1);
    assert Repeat(bufLen, 1) == [bufLen];
  }

  /** ERANGE twice, then success: three calls with buffers of 1024, 2048 and 3072 bytes. */
  lemma GetgrRetriesOnERANGE(e: GroupEntry)
    requires !e.resultNull && !e.nameEmpty
    ensures var calls := [Response(ERANGE, ERANGE), Response(ERANGE, ERANGE), Response(0, 0)];
            var entries := [GroupEntry(true, false, 0), GroupEntry(true, false, 0), e];
            Getgr(InitialBufLen(-1), calls, entries, 0) == Outcome(Some(Ok(e.gid)), [1024, 2048, 3072])
  {
    var calls := [Response(ERANGE, ERANGE), Response(ERANGE, ERANGE), Response(0, 0)];
    var entries := [GroupEntry(true, false, 0), GroupEntry(true, false, 0), e];
    assert calls[2..] == [Response(0, 0)];
    assert Restart(calls[2..]) == (Some(Ok(0)), 1);
    assert GetgrPass(calls, entries, 2) == Done(Some(Ok(e.gid)), 1);
    assert Repeat(3072, 1) == [3072];
    assert Getgr(3072, calls, entries, 2) == Outcome(Some(Ok(e.gid)), [3072]);
    assert calls[1..] == [Response(ERANGE, ERANGE), Response(0, 0)];
    assert Restart(calls[1..]) == (Some(Ok(ERANGE)), 1);
    assert GetgrPass(calls, entries, 1) == Retry(1);
    assert Repeat(2048, 1) == [2048];
    assert Getgr(2048, calls, entries, 1) == Outcome(Some(Ok(e.gid)), [2048, 3072]);
    assert calls[0..] == calls;
    assert Restart(calls[0..]) == (Some(Ok(ERANGE)), 1);
    assert GetgrPass(calls, entries, 0) == Retry(1);
    assert Repeat(1024, 1) == [1024];
  }

  /** An entry lookup that fails with EBADF reports "no such group" rather than throwing. */
  lemma GetgrBadFileNotFound(bufLen: int)
    ensures Getgr(bufLen, [Response(EBADF, EBADF)], [GroupEntry(true, false, 0)], 0) == Outcome(Some(Ok(-1)), [bufLen])
  {
    assert [Response(EBADF, EBADF)][0..] == [Response(EBADF, EBADF)];
    assert Restart([Response(EBADF, EBADF)]) == (Some(Ok(EBADF)), 1);
    assert Repeat(bufLen, 1) == [bufLen];
  }
}
