/**
 * UnixFileAttributes: the fields of a stat64 structure, kept as read, and their
 * conversion to FileTime values. A time stamp is whole seconds when its nanosecond
 * part is zero, nanoseconds when those fit in a Java long, and microseconds
 * otherwise.
 */
module UnixFileAttributes {
  import opened JavaInts

  /** java.util.concurrent.TimeUnit, the three units this class uses. */
  datatype TimeUnit = SECONDS | MICROSECONDS | NANOSECONDS

  /** FileTime.from(value, unit): a count of units since the epoch. */
  datatype FileTime = FileTime(value: int, unit: TimeUnit)

  /** Nanoseconds per unit. */
  function UnitNanos(u: TimeUnit): nat
  {
    match u
    case SECONDS => 1000_000_000
    case MICROSECONDS => 1000
    case NANOSECONDS => 1
  }

  /** The instant a FileTime denotes, in nanoseconds since the epoch. */
  function Nanos(t: FileTime): int
  {
    t.value * UnitNanos(t.unit)
  }

  /** A struct timespec as read from native memory. */
  datatype Timespec = Timespec(tv_sec: int, tv_nsec: int)

  /** The fields of a struct stat64 that the class reads. */
  datatype Stat64 = Stat64(
    st_mode: int, st_ino: int, st_dev: int, st_rdev: int, st_nlink: int,
    st_uid: int, st_gid: int, st_size: int,
    st_atimespec: Timespec, st_mtimespec: Timespec, st_ctimespec: Timespec,
    st_birthtimespec: Timespec)

  /** The attributes object: its fields are set once, by a constructor, and never change. */
  datatype Attributes = Attributes(
    st_mode: int, st_ino: int, st_dev: int, st_rdev: int, st_nlink: int,
    st_uid: int, st_gid: int, st_size: int,
    st_atime_sec: int, st_atime_nsec: int,
    st_mtime_sec: int, st_mtime_nsec: int,
    st_ctime_sec: int, st_ctime_nsec: int,
    st_birthtime_sec: int)
  {
    function mode(): int { st_mode }
    function ino(): int { st_ino }
    function dev(): int { st_dev }
    function rdev(): int { st_rdev }
    function nlink(): int { st_nlink }
    function uid(): int { st_uid }
    function gid(): int { st_gid }
    function size(): int { st_size }

    /** ctime(): the status-change time. */
    function ctime(): FileTime { ToFileTime(st_ctime_sec, st_ctime_nsec) }

    /** lastModifiedTime(). */
    function lastModifiedTime(): FileTime { ToFileTime(st_mtime_sec, st_mtime_nsec) }

    /** lastAccessTime(). */
    function lastAccessTime(): FileTime { ToFileTime(st_atime_sec, st_atime_nsec) }

    /** creationTime(): the birth time, whole seconds only. */
    function creationTime(): FileTime { FileTime(st_birthtime_sec, SECONDS) }
  }

  /** The constructor that copies the fields of a stat64 structure. */
  function FromStat(buf: Stat64): Attributes
  {
    Attributes(
      buf.st_mode, buf.st_ino, buf.st_dev, buf.st_rdev, buf.st_nlink,
      buf.st_uid, buf.st_gid, buf.st_size,
      buf.st_atimespec.tv_sec, buf.st_atimespec.tv_nsec,
      buf.st_mtimespec.tv_sec, buf.st_mtimespec.tv_nsec,
      buf.st_ctimespec.tv_sec, buf.st_ctimespec.tv_nsec,
      buf.st_birthtimespec.tv_sec)
  }

  /** Whether sec * 10^9 + nsec is computed without either exact operation throwing. */
  predicate NanosFit(sec: int, nsec: int)
  {
    InLong(sec * 1000_000_000) && InLong(nsec + sec * 1000_000_000)
  }

  /**
   * toFileTime(sec, nsec): seconds when nsec is zero; else the exact nanosecond
   * count, unless multiplyExact or addExact overflows, in which case the
   * microseconds sec * 10^6 + nsec / 1000, computed with long wrap-around.
   */
  function ToFileTime(sec: int, nsec: int): (r: FileTime)
    ensures nsec == 0 ==> r == FileTime(sec, SECONDS)
    ensures nsec != 0 && NanosFit(sec, nsec) ==> r.unit == NANOSECONDS && r.value == sec * 1000_000_000 + nsec
    ensures nsec != 0 && !NanosFit(sec, nsec) ==> r.unit == MICROSECONDS && InLong(r.value)
    ensures nsec != 0 && !NanosFit(sec, nsec) && InLong(sec * 1000_000) && InLong(sec * 1000_000 + JDiv(nsec, 1000)) ==>
              r.value == sec * 1000_000 + JDiv(nsec, 1000)
  {
    if nsec == 0 then FileTime(sec, SECONDS)
    else if NanosFit(sec, nsec) then FileTime(nsec + sec * 1000_000_000, NANOSECONDS)
    else FileTime(ToLong(ToLong(sec * 1000_000) + JDiv(nsec, 1000)), MICROSECONDS)
  }

  /** Whenever it does not fall back to microseconds, toFileTime denotes exactly sec seconds plus nsec nanoseconds. */
  lemma ToFileTimeExact(sec: int, nsec: int)
    requires nsec == 0 || NanosFit(sec, nsec)
    ensures Nanos(ToFileTime(sec, nsec)) == sec * 1000_000_000 + nsec
    ensures ToFileTime(sec, nsec).unit != MICROSECONDS
  {
  }

  /**
   * With a valid nanosecond part, the fallback only happens more than about 292
   * years from the epoch: within that range the time is exact.
   */
  lemma NearTimesAreExact(sec: int, nsec: int)
    requires 0 <= nsec < 1000_000_000
    requires -9_223_372_035 <= sec <= 9_223_372_035
    ensures Nanos(ToFileTime(sec, nsec)) == sec * 1000_000_000 + nsec
  {
    assert nsec == 0 || NanosFit(sec, nsec);
    ToFileTimeExact(sec, nsec);
  }

  /**
   * When the fallback is taken and the microsecond count does not wrap, the
   * result is the exact time cut down to whole microseconds (toward the epoch's
   * past, as nsec is not negative): it loses less than one microsecond.
   */
  lemma FallbackTruncatesToMicros(sec: int, nsec: int)
    requires 0 < nsec < 1000_000_000 && !NanosFit(sec, nsec)
    requires -9_223_372_036_853 <= sec <= 9_223_372_036_853
    ensures ToFileTime(sec, nsec).unit == MICROSECONDS
    ensures var lost := sec * 1000_000_000 + nsec - Nanos(ToFileTime(sec, nsec));
            0 <= lost < 1000
  {
    var micros := sec * 1000_000 + nsec / 1000;
    assert InLong(sec * 1000_000) && InLong(micros);
    assert JDiv(nsec, 1000) == nsec / 1000;
    assert ToFileTime(sec, nsec).value == micros;
    assert nsec - (nsec / 1000) * 1000 == nsec % 1000;
  }

  /**
   * The attributes read from a stat64 structure give its fields back, each of the
   * three converted times is built from its own timespec, and the creation time is
   * the birth time's seconds.
   */
  lemma FromStatReadsBack(buf: Stat64)
    ensures var a := FromStat(buf);
            a.mode() == buf.st_mode && a.ino() == buf.st_ino && a.dev() == buf.st_dev
            && a.rdev() == buf.st_rdev && a.nlink() == buf.st_nlink && a.uid() == buf.st_uid
            && a.gid() == buf.st_gid && a.size() == buf.st_size
            && a.ctime() == ToFileTime(buf.st_ctimespec.tv_sec, buf.st_ctimespec.tv_nsec)
            && a.lastModifiedTime() == ToFileTime(buf.st_mtimespec.tv_sec, buf.st_mtimespec.tv_nsec)
            && a.lastAccessTime() == ToFileTime(buf.st_atimespec.tv_sec, buf.st_atimespec.tv_nsec)
            && Nanos(a.creationTime()) == buf.st_birthtimespec.tv_sec * 1000_000_000
  {
  }

  /** A timespec with a valid nanosecond part, within about 292 years of the epoch. */
  predicate Near(t: Timespec)
  {
    0 <= t.tv_nsec < 1000_000_000 && -9_223_372_035 <= t.tv_sec <= 9_223_372_035
  }

  /**
   * Within about 292 years of the epoch and with valid nanosecond parts, each of
   * the three times read from a stat64 structure denotes its timespec exactly.
   */
  lemma StatTimesExact(buf: Stat64)
    requires Near(buf.st_atimespec) && Near(buf.st_mtimespec) && Near(buf.st_ctimespec)
    ensures var a := FromStat(buf);
            Nanos(a.lastAccessTime()) == buf.st_atimespec.tv_sec * 1000_000_000 + buf.st_atimespec.tv_nsec
            && Nanos(a.lastModifiedTime()) == buf.st_mtimespec.tv_sec * 1000_000_000 + buf.st_mtimespec.tv_nsec
            && Nanos(a.ctime()) == buf.st_ctimespec.tv_sec * 1000_000_000 + buf.st_ctimespec.tv_nsec
  {
    NearTimesAreExact(buf.st_atimespec.tv_sec, buf.st_atimespec.tv_nsec);
    NearTimesAreExact(buf.st_mtimespec.tv_sec, buf.st_mtimespec.tv_nsec);
    NearTimesAreExact(buf.st_ctimespec.tv_sec, buf.st_ctimespec.tv_nsec);
  }
}
