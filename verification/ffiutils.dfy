/**
 * FFIUtils: NUL-terminated strings in native memory and the classification of a
 * system call's return value. The value of errno, which the source reads from
 * native memory, is a parameter here.
 */
module FFIUtils {
  import opened Wrappers
  import opened Errno
  import opened IOStatus

  /** A Java byte. */
  type Byte = b: int | -128 <= b < 128

  /** A native memory segment: its base address (0 is NULL) and its contents. */
  datatype Segment = Segment(address: int, bytes: seq<Byte>)

  // ---- copyToNativeBytes ----

  /** The bytes of a C string built from `ar`: a NUL is added unless `ar` already ends in one. */
  function NulTerminated(ar: seq<Byte>): (r: seq<Byte>)
    requires |ar| > 0
    ensures |r| == if ar[|ar| - 1] == 0 then |ar| else |ar| + 1
    ensures r[..|ar|] == ar && r[|r| - 1] == 0
  {
    if ar[|ar| - 1] == 0 then ar else ar + [0]
  }

  /**
   * copyToNativeBytes(ar, allocator): a buffer of the C string's length, `ar` copied
   * in at its start and a NUL written into its last byte. An empty array has no
   * last byte to look at.
   */
  method CopyToNativeBytes(ar: seq<Byte>) returns (r: Result<seq<Byte>>)
    ensures r.Err? <==> |ar| == 0
    ensures r.Err? ==> r.error == IndexOutOfBoundsException
    ensures r.Ok? ==> r.value == NulTerminated(ar)
  {
    if |ar| == 0 {
      return Err(IndexOutOfBoundsException);
    }
    var len := if ar[|ar| - 1] == 0 then |ar| else |ar| + 1;
    var buf := new Byte[len](_ => 0);
    for i := 0 to |ar|
      invariant buf[..i] == ar[..i]
    {
      buf[i] := ar[i];
    }
    buf[len - 1] := 0;
    assert buf[..] == NulTerminated(ar);
    return Ok(buf[..]);
  }

  // ---- toByteArray ----

  /** The index of the first NUL byte. */
  function FirstNul(bs: seq<Byte>): (k: nat)
    requires 0 in bs
    ensures k < |bs| && bs[k] == 0 && 0 !in bs[..k]
  {
    if bs[0] == 0 then 0 else 1 + FirstNul(bs[1..])
  }

  /**
   * toByteArray(cstr): null for the NULL address, else the bytes before the first
   * NUL; reading past the end of the segment without meeting a NUL throws.
   */
  function CString(s: Segment): (r: Result<Option<seq<Byte>>>)
    ensures r == Ok(None) <==> s.address == 0
    ensures r.Err? <==> s.address != 0 && 0 !in s.bytes
    ensures r.Err? ==> r.error == IndexOutOfBoundsException
    ensures r.Ok? && r.value.Some? ==>
              var v := r.value.value; |v| < |s.bytes| && v == s.bytes[..|v|] && s.bytes[|v|] == 0 && 0 !in v
  {
    if s.address == 0 then Ok(None)
    else if 0 !in s.bytes then Err(IndexOutOfBoundsException)
    else Ok(Some(s.bytes[..FirstNul(s.bytes)]))
  }

  /** toByteArray(cstr), the loop that counts the bytes before the NUL. */
  method ToByteArray(cstr: Segment) returns (r: Result<Option<seq<Byte>>>)
    ensures r == CString(cstr)
  {
    if cstr.address == 0 {
      return Ok(None);
    }
    var len := 0;
    while len < |cstr.bytes| && cstr.bytes[len] != 0
      invariant 0 <= len <= |cstr.bytes|
      invariant 0 !in cstr.bytes[..len]
    {
      assert cstr.bytes[..len + 1] == cstr.bytes[..len] + [cstr.bytes[len]];
      len := len + 1;
    }
    if len == |cstr.bytes| {
      assert cstr.bytes[..len] == cstr.bytes;
      return Err(IndexOutOfBoundsException);
    }
    assert 0 in cstr.bytes;
    FirstNulUnique(cstr.bytes, len);
    return Ok(Some(cstr.bytes[..len]));
  }

  /** A NUL with no NUL before it is the first one. */
  lemma {:induction false} FirstNulUnique(bs: seq<Byte>, k: nat)
    requires k < |bs| && bs[k] == 0 && 0 !in bs[..k]
    ensures FirstNul(bs) == k
  {
    if bs[0] != 0 {
      assert bs[1..][..k - 1] == bs[..k][1..];
      FirstNulUnique(bs[1..], k - 1);
    }
  }

  /**
   * A C string written by copyToNativeBytes reads back as the original bytes, less
   * the NUL the original may have ended with, provided no other NUL is inside.
   */
  lemma CStringRoundTrip(ar: seq<Byte>, address: int)
    requires |ar| > 0 && address != 0
    requires 0 !in ar[..|ar| - 1]
    ensures CString(Segment(address, NulTerminated(ar)))
            == Ok(Some(if ar[|ar| - 1] == 0 then ar[..|ar| - 1] else ar))
  {
    var bs := NulTerminated(ar);
    if ar[|ar| - 1] == 0 {
      FirstNulUnique(bs, |ar| - 1);
    } else {
      assert 0 !in ar by {
        assert ar == ar[..|ar| - 1] + [ar[|ar| - 1]];
      }
      assert bs[..|ar|] == ar;
      FirstNulUnique(bs, |ar|);
    }
  }

  // ---- isEmptyString ----

  /** isEmptyString(addr): the NULL address, or a C string whose first byte is NUL; `mem` is native memory. */
  predicate IsEmptyString(addr: int, mem: int -> Byte)
  {
    addr == 0 || mem(addr) == 0
  }

  /** An empty string is exactly one that toByteArray reads as null or as no bytes. */
  lemma EmptyStringIsEmptyRead(s: Segment, mem: int -> Byte)
    requires s.address != 0 ==> |s.bytes| > 0 && mem(s.address) == s.bytes[0]
    ensures IsEmptyString(s.address, mem) <==> CString(s) == Ok(None) || CString(s) == Ok(Some([]))
  {
    if s.address != 0 && mem(s.address) == 0 {
      FirstNulUnique(s.bytes, 0);
    }
  }

  // ---- checkErrno ----

  /** checkErrno(expected, ex): throws the supplied exception exactly when errno differs from `expected`. */
  function CheckErrno(errno: int, expected: int, ex: Exception): (r: Option<Exception>)
    ensures r.None? <==> errno == expected
    ensures r.Some? ==> r.value == ex
  {
    if errno != expected then Some(ex) else None
  }

  // ---- convertReturnValue ----

  /**
   * convertReturnValue(n, reading): a positive count is returned as is; zero is end
   * of file when reading and zero otherwise; a failure is classified by errno.
   */
  function ConvertReturnValue(n: int, reading: bool, errno: int): (r: Result<int>)
    ensures n > 0 ==> r == Ok(n)
    ensures n == 0 ==> r == Ok(if reading then EOF else 0)
    ensures n < 0 && (errno == EAGAIN || errno == EWOULDBLOCK) ==> r == Ok(UNAVAILABLE)
    ensures n < 0 && errno == EINTR ==> r == Ok(INTERRUPTED)
    ensures r.Err? <==> n < 0 && errno != EAGAIN && errno != EWOULDBLOCK && errno != EINTR
    ensures r.Err? ==> r.error == IOException
  {
    if n > 0 then Ok(n)
    else if n == 0 then (if reading then Ok(EOF) else Ok(0))
    else if errno == EAGAIN || errno == EWOULDBLOCK then Ok(UNAVAILABLE)
    else if errno == EINTR then Ok(INTERRUPTED)
    else Err(IOException)
  }

  /**
   * A caller can tell a transfer from a status: the result is positive exactly when
   * bytes moved, and each status code names one situation.
   */
  lemma ConvertedStatusesDistinct(n: int, reading: bool, errno: int)
    requires ConvertReturnValue(n, reading, errno).Ok?
    ensures var v := ConvertReturnValue(n, reading, errno).value;
            (v > 0 <==> n > 0)
            && (v == EOF <==> n == 0 && reading)
            && (v == 0 <==> n == 0 && !reading)
            && (v == UNAVAILABLE <==> n < 0 && errno == EAGAIN)
            && (v == INTERRUPTED <==> n < 0 && errno == EINTR)
  {
  }
}
