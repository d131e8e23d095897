/**
  The strings that tie the parts together: sorted-set members, table names and lock keys.
  Decimal formatting, strings.Split and strconv.ParseInt are written out.  The calendar
  label of a minute is replaced by the decimal number of the minute: all that is used of it
  is that it has no '_' and that it can be read back.
 */
module Keys {
  import opened Clock
  import opened Wrappers

  const MAX_INT64 := 0x7fff_ffff_ffff_ffff
  const MAX_UINT64 := 0xffff_ffff_ffff_ffff

  predicate Int64(i: int) {
    -MAX_INT64 - 1 <= i <= MAX_INT64
  }

  /** A task is known by its timer and its run time, the unique key of the table. */
  datatype Task = Task(timer: int, run: int) {
    predicate Fits() {
      Int64(timer) && Int64(run)
    }
  }

  // ---- Formatting and parsing ----

  predicate IsDigit(c: char) {
    '0' <= c <= '9'
  }

  function Digits(n: nat): (s: string)
    ensures |s| > 0 && forall c | c in s :: IsDigit(c)
  {
    var d := ['0' + (n % 10) as char];
    if n < 10 then d else Digits(n / 10) + d
  }

  function FormatInt(i: int): string {
    if i < 0 then "-" + Digits(-i) else Digits(i)
  }

  datatype Parsed = Value(n: nat) | OutOfRange | BadSyntax

  /** The digit loop of strconv.ParseUint with base 10 and 64 bits. */
  function ParseUint(s: string, n: nat): Parsed {
    if s == "" then Value(n)
    else if !IsDigit(s[0]) then BadSyntax
    else
      var n1 := 10 * n + (s[0] - '0') as nat;
      if n1 > MAX_UINT64 then OutOfRange else ParseUint(s[1..], n1)
  }

  /** strconv.ParseInt: 0 for bad syntax and the nearest bound when out of range, both with an error. */
  function ParseSigned(s: string): (int, bool) {
    var signed := s != "" && (s[0] == '-' || s[0] == '+');
    var negative := s != "" && s[0] == '-';
    var body := if signed then s[1..] else s;
    if body == "" then (0, false)
    else
      match ParseUint(body, 0)
      case BadSyntax => (0, false)
      case OutOfRange => (if negative then -MAX_INT64 - 1 else MAX_INT64, false)
      case Value(n) =>
        if negative then (if n > MAX_INT64 + 1 then (-MAX_INT64 - 1, false) else (-(n as int), true))
        else (if n > MAX_INT64 then (MAX_INT64, false) else (n, true))
  }

  /** A caller that ignores the error. */
  function ParseInt(s: string): int {
    ParseSigned(s).0
  }

  /** A caller that passes the error on. */
  function Atoi(s: string): Option<int> {
    var (value, ok) := ParseSigned(s);
    if ok then Some(value) else None
  }

  function Split(s: string, sep: char): (parts: seq<string>)
    ensures |parts| > 0
  {
    if s == "" then [""]
    else
      var rest := Split(s[1..], sep);
      if s[0] == sep then [""] + rest else [[s[0]] + rest[0]] + rest[1..]
  }

  lemma {:induction false} ParseUintAppend(a: string, b: string, n: nat)
    ensures ParseUint(a + b, n) == match ParseUint(a, n)
                                   case Value(v) => ParseUint(b, v)
                                   case bad => bad
  {
    if a == "" {
      assert a + b == b;
    } else {
      assert (a + b)[1..] == a[1..] + b;
      if IsDigit(a[0]) {
        ParseUintAppend(a[1..], b, 10 * n + (a[0] - '0') as nat);
      }
    }
  }

  lemma {:induction false} ParseDigits(n: nat)
    requires n <= MAX_UINT64
    ensures ParseUint(Digits(n), 0) == Value(n)
  {
    var d := ['0' + (n % 10) as char];
    assert forall v: nat :: 10 * v + n % 10 <= MAX_UINT64 ==> ParseUint(d, v) == ParseUint("", 10 * v + n % 10);
    if n >= 10 {
      ParseDigits(n / 10);
      ParseUintAppend(Digits(n / 10), d, 0);
    }
  }

  /** Parsing what was formatted gives the number, up to the bounds of an int64. */
  lemma ParseFormatted(i: int)
    requires -MAX_INT64 - 1 <= i <= MAX_UINT64
    ensures ParseInt(FormatInt(i)) == if i > MAX_INT64 then MAX_INT64 else i
    ensures Atoi(FormatInt(i)) == if i > MAX_INT64 then None else Some(i)
  {
    if i < 0 {
      ParseDigits(-i);
      assert FormatInt(i)[1..] == Digits(-i);
    } else {
      ParseDigits(i);
      assert IsDigit(Digits(i)[0]);
    }
  }

  lemma {:induction false} SplitOnce(a: string, b: string, sep: char)
    requires sep !in a && sep !in b
    ensures Split(a + [sep] + b, sep) == [a, b]
  {
    if a == "" {
      SplitNone(b, sep);
      assert (a + [sep] + b)[1..] == b;
    } else {
      SplitOnce(a[1..], b, sep);
      assert (a + [sep] + b)[1..] == a[1..] + [sep] + b;
      assert [a[0]] + a[1..] == a;
    }
  }

  lemma {:induction false} SplitNone(s: string, sep: char)
    requires sep !in s
    ensures Split(s, sep) == [s]
  {
    if s != "" {
      SplitNone(s[1..], sep);
      assert [s[0]] + s[1..] == s;
    }
  }

  lemma FormatHasNoUnderscore(i: int)
    ensures '_' !in FormatInt(i)
  {
    assert !IsDigit('_');
  }

  // ---- Sorted-set members ----

  /** The conversion of an int64 to uint. */
  function UintOf(i: int): int {
    if i < 0 then i + MAX_UINT64 + 1 else i
  }

  function UnionTimerIDUnix(id: int, unix: int): string {
    FormatInt(id) + "_" + FormatInt(unix)
  }

  function SplitTimerIDUnix(s: string): Option<(int, int)> {
    var parts := Split(s, '_');
    if |parts| != 2 then None else Some((ParseInt(parts[0]), ParseInt(parts[1])))
  }

  function Member(timer: int, run: int): string {
    UnionTimerIDUnix(UintOf(timer), run)
  }

  lemma MemberParts(timer: int, run: int)
    ensures Split(Member(timer, run), '_') == [FormatInt(UintOf(timer)), FormatInt(run)]
  {
    FormatHasNoUnderscore(UintOf(timer));
    FormatHasNoUnderscore(run);
    SplitOnce(FormatInt(UintOf(timer)), FormatInt(run), '_');
  }

  /** Split undoes union for every time, and exactly for the ids that are not negative. */
  lemma MemberRoundTripIff(timer: int, run: int)
    requires Int64(timer) && Int64(run)
    ensures SplitTimerIDUnix(Member(timer, run)) == Some((if timer < 0 then MAX_INT64 else timer, run))
    ensures SplitTimerIDUnix(Member(timer, run)) == Some((timer, run)) <==> timer >= 0
  {
    MemberParts(timer, run);
    ParseFormatted(UintOf(timer));
    ParseFormatted(run);
  }

  lemma DigitsInjective(a: nat, b: nat)
    requires a <= MAX_UINT64 && b <= MAX_UINT64 && Digits(a) == Digits(b)
    ensures a == b
  {
    ParseDigits(a);
    ParseDigits(b);
  }

  /** Different tasks have different members, negative ids included. */
  lemma MembersInjective(timer: int, run: int, timer': int, run': int)
    requires Int64(timer) && Int64(run) && Int64(timer') && Int64(run')
    requires Member(timer, run) == Member(timer', run')
    ensures timer == timer' && run == run'
  {
    MemberParts(timer, run);
    MemberParts(timer', run');
    ParseFormatted(run);
    ParseFormatted(run');
    DigitsInjective(UintOf(timer), UintOf(timer'));
  }

  // ---- Slices ----

  function MinuteLabel(t: int): string {
    FormatInt(t / MINUTE)
  }

  function GetSliceMsgKey(t: int, bucket: int): string {
    MinuteLabel(t) + "_" + FormatInt(bucket)
  }

  function GetTimeBucketLockKey(t: int, bucket: int): string {
    "time_bucket_lock_" + GetSliceMsgKey(t, bucket)
  }

  function GetEnableLockKey(app: string): string {
    "enable_timer_lock_" + app
  }

  /** Go's %, which truncates. */
  function TruncMod(a: int, b: nat): int
    requires b > 0
  {
    if a < 0 then -(-a % b) else a % b
  }

  /** uint(timer) % uint(buckets) */
  function UintMod(timer: int, buckets: nat): int
    requires buckets > 0
  {
    UintOf(timer) % buckets
  }

  function GetTableName(timer: int, run: int, buckets: nat): string
    requires buckets > 0
  {
    MinuteLabel(run) + "_" + FormatInt(TruncMod(timer, buckets))
  }

  /** None stands for the error of a key without its two parts, or with a part that cannot be read. */
  function GetStartMinute(key: string): Option<int> {
    var parts := Split(key, '_');
    if |parts| != 2 then None
    else
      match Atoi(parts[0])
      case None => None
      case Some(minutes) => Some(minutes * MINUTE)
  }

  function GetBucket(key: string): Option<int> {
    var parts := Split(key, '_');
    if |parts| != 2 then None else Atoi(parts[1])
  }

  lemma SliceKeyParts(t: int, bucket: int)
    ensures Split(GetSliceMsgKey(t, bucket), '_') == [MinuteLabel(t), FormatInt(bucket)]
  {
    FormatHasNoUnderscore(t / MINUTE);
    FormatHasNoUnderscore(bucket);
    SplitOnce(MinuteLabel(t), FormatInt(bucket), '_');
  }

  /** The trigger recovers from a slice's key the minute and the bucket it was made from. */
  lemma SliceKeyRoundTrip(t: int, bucket: int)
    requires Int64(t) && Int64(bucket)
    ensures GetStartMinute(GetSliceMsgKey(t, bucket)) == Some(MinuteOf(t))
    ensures GetBucket(GetSliceMsgKey(t, bucket)) == Some(bucket)
  {
    SliceKeyParts(t, bucket);
    LabelReadsBack(t);
    ParseFormatted(bucket);
  }

  lemma LabelReadsBack(t: int)
    requires Int64(t)
    ensures Atoi(MinuteLabel(t)) == Some(t / MINUTE) && t / MINUTE * MINUTE == MinuteOf(t)
  {
    ParseFormatted(t / MINUTE);
  }

  /** The lock key and the message key of a slice determine its minute and bucket, so slices do not interfere. */
  lemma SliceKeysInjective(t: int, bucket: int, t': int, bucket': int)
    requires Int64(t) && Int64(bucket) && Int64(t') && Int64(bucket')
    ensures GetSliceMsgKey(t, bucket) == GetSliceMsgKey(t', bucket')
       <==> MinuteOf(t) == MinuteOf(t') && bucket == bucket'
    ensures GetTimeBucketLockKey(t, bucket) == GetTimeBucketLockKey(t', bucket')
       <==> MinuteOf(t) == MinuteOf(t') && bucket == bucket'
  {
    SliceKeyRoundTrip(t, bucket);
    SliceKeyRoundTrip(t', bucket');
    assert MinuteOf(t) == MinuteOf(t') ==> t / MINUTE == t' / MINUTE;
    var prefix := "time_bucket_lock_";
    assert GetTimeBucketLockKey(t, bucket)[|prefix|..] == GetSliceMsgKey(t, bucket);
    assert GetTimeBucketLockKey(t', bucket')[|prefix|..] == GetSliceMsgKey(t', bucket');
  }

  /** Each app has an enable lock of its own, which is no slice's lock. */
  lemma EnableLocksAreOwn(app: string, app': string, t: int, bucket: int)
    ensures GetEnableLockKey(app) == GetEnableLockKey(app') <==> app == app'
    ensures GetEnableLockKey(app) != GetTimeBucketLockKey(t, bucket)
  {
    var prefix := "enable_timer_lock_";
    assert GetEnableLockKey(app)[|prefix|..] == app && GetEnableLockKey(app')[|prefix|..] == app';
    assert GetEnableLockKey(app)[0] == 'e' && GetTimeBucketLockKey(t, bucket)[0] == 't';
  }

  /** The writer's table is the reader's slice exactly for the task's minute and its (truncated) remainder. */
  lemma TableIsSlice(timer: int, run: int, buckets: nat, t: int, bucket: int)
    requires buckets > 0 && Int64(timer) && Int64(run) && Int64(t) && Int64(bucket) && Int64(buckets)
    ensures GetTableName(timer, run, buckets) == GetSliceMsgKey(t, bucket)
       <==> MinuteOf(run) == MinuteOf(t) && TruncMod(timer, buckets) == bucket
  {
    SliceKeysInjective(run, TruncMod(timer, buckets), t, bucket);
  }
}
