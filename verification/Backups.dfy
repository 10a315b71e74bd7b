/** Dump names and retention of scripts/backup-db.ts; the directory is its set of names. */
module Backups {
  import opened Wrappers
  import opened Digits
  import opened Calendars

  const DAY_MS := 86_400_000

  function DayOf(t: int): int { t / DAY_MS }

  function SecondOfDay(t: int): int { t % DAY_MS / 1000 }

  /** The instant truncated to its second. */
  function Floored(t: int): int { t - t % 1000 }

  predicate FourDigitInstant(t: int) { FourDigitYear(CivilOf(DayOf(t))) }

  /** HHMMSS, of a second of the day. */
  function Clock(s: int): (r: string)
    requires 0 <= s < 86_400
    ensures |r| == 6
  {
    Pad(s / 3600, 2) + Pad(s / 60 % 60, 2) + Pad(s % 60, 2)
  }

  function CompactDate(c: Civil): (r: string)
    requires RealDay(c) && FourDigitYear(c)
    ensures |r| == 8
  {
    Pad(c.year, 4) + Pad(c.month, 2) + Pad(c.day, 2)
  }

  const PREFIX := "user-core-"
  const SUFFIX := "Z.dump"

  function DumpFileName(t: int): (r: string)
    requires FourDigitInstant(t)
    ensures |r| == 31
  {
    CivilOfIsReal(DayOf(t));
    PREFIX + CompactDate(CivilOf(DayOf(t))) + "T" + Clock(SecondOfDay(t)) + SUFFIX
  }

  predicate DumpShape(name: string) {
    && |name| == 31 && name[..10] == PREFIX && AllDigits(name[10..18]) && name[18] == 'T'
    && AllDigits(name[19..25]) && name[25..] == SUFFIX
  }

  /** Date.UTC, with two-digit years read as 19xx and every overflow carried. */
  function DateUtc(y: int, mo: int, d: int, h: int, mi: int, s: int): int {
    var year := if 0 <= y <= 99 then 1900 + y else y;
    DayNumber(Civil(year, mo, d)) * DAY_MS + h * 3_600_000 + mi * 60_000 + s * 1000
  }

  function DumpTimestamp(name: string): Option<int> {
    if !DumpShape(name) then None
    else Some(DateUtc(Num(name[10..14]), Num(name[14..16]), Num(name[16..18]),
                      Num(name[19..21]), Num(name[21..23]), Num(name[23..25])))
  }

  // ---------------------------------------------------------------------------
  // Printing and parsing
  // ---------------------------------------------------------------------------

  lemma ClockParts(s: int)
    requires 0 <= s < 86_400
    ensures 0 <= s / 3600 < 100 && 0 <= s / 60 % 60 < 100 && 0 <= s % 60 < 100
    ensures s / 3600 * 3600 + s / 60 % 60 * 60 + s % 60 == s
  {
    assert s / 60 / 60 == s / 3600;
  }

  /** Three fields of two characters are read back by position. */
  lemma TwoTwoTwo(a: string, b: string, c: string)
    requires |a| == |b| == 2 && AllDigits(a) && AllDigits(b) && AllDigits(c)
    ensures
      var r := a + b + c;
      r[..2] == a && r[2..4] == b && r[4..] == c && AllDigits(r)
  {
  }

  lemma SixDigits(h: nat, m: nat, s: nat)
    requires h < 100 && m < 100 && s < 100
    ensures
      var r := Pad(h, 2) + Pad(m, 2) + Pad(s, 2);
      Num(r[..2]) == h && Num(r[2..4]) == m && Num(r[4..]) == s && AllDigits(r)
  {
    Pow10Values();
    NumOfPad(h, 2);
    NumOfPad(m, 2);
    NumOfPad(s, 2);
    TwoTwoTwo(Pad(h, 2), Pad(m, 2), Pad(s, 2));
  }

  lemma ClockFields(s: int)
    requires 0 <= s < 86_400
    ensures Num(Clock(s)[..2]) == s / 3600 && Num(Clock(s)[2..4]) == s / 60 % 60 && Num(Clock(s)[4..]) == s % 60
    ensures s / 3600 * 3600 + s / 60 % 60 * 60 + s % 60 == s
    ensures AllDigits(Clock(s))
  {
    ClockParts(s);
    SixDigits(s / 3600, s / 60 % 60, s % 60);
  }

  lemma CompactFields(c: Civil)
    requires RealDay(c) && FourDigitYear(c)
    ensures Num(CompactDate(c)[..4]) == c.year && Num(CompactDate(c)[4..6]) == c.month && Num(CompactDate(c)[6..]) == c.day
    ensures AllDigits(CompactDate(c))
  {
    Pow10Values();
    DayIsTwoDigits(c);
    NumOfPad(c.year, 4);
    NumOfPad(c.month, 2);
    NumOfPad(c.day, 2);
    assert CompactDate(c)[..4] == Pad(c.year, 4);
    assert CompactDate(c)[4..6] == Pad(c.month, 2);
    assert CompactDate(c)[6..] == Pad(c.day, 2);
  }

  lemma NameParts(date: string, clock: string)
    requires |date| == 8 && |clock| == 6
    ensures
      var n := PREFIX + date + "T" + clock + SUFFIX;
      && |n| == 31 && n[..10] == PREFIX && n[10..18] == date && n[18] == 'T' && n[19..25] == clock && n[25..] == SUFFIX
      && n[10..14] == date[..4] && n[14..16] == date[4..6] && n[16..18] == date[6..]
      && n[19..21] == clock[..2] && n[21..23] == clock[2..4] && n[23..25] == clock[4..]
  {
  }

  function Instant(day: int, second: int): int { day * DAY_MS + second * 1000 }

  function AsUtcReads(c: Civil): Civil { if 0 <= c.year <= 99 then Civil(1900 + c.year, c.month, c.day) else c }

  lemma ReadParts(date: string, clock: string)
    requires |date| == 8 && |clock| == 6 && AllDigits(date) && AllDigits(clock)
    ensures DumpTimestamp(PREFIX + date + "T" + clock + SUFFIX) ==
            Some(DateUtc(Num(date[..4]), Num(date[4..6]), Num(date[6..]), Num(clock[..2]), Num(clock[2..4]), Num(clock[4..])))
  {
    NameParts(date, clock);
  }

  lemma UtcIsInstant(c: Civil, h: int, mi: int, sec: int, s: int)
    requires FourDigitYear(c) && h * 3600 + mi * 60 + sec == s
    ensures DateUtc(c.year, c.month, c.day, h, mi, sec) == Instant(DayNumber(AsUtcReads(c)), s)
  {
  }

  lemma ReadName(c: Civil, s: int)
    requires RealDay(c) && FourDigitYear(c) && 0 <= s < 86_400
    ensures DumpTimestamp(PREFIX + CompactDate(c) + "T" + Clock(s) + SUFFIX) == Some(Instant(DayNumber(AsUtcReads(c)), s))
  {
    CompactFields(c);
    ClockFields(s);
    ReadParts(CompactDate(c), Clock(s));
    UtcIsInstant(c, s / 3600, s / 60 % 60, s % 60, s);
  }

  lemma ReadBack(t: int)
    requires FourDigitInstant(t)
    ensures
      DumpTimestamp(DumpFileName(t)) == Some(Instant(DayNumber(AsUtcReads(CivilOf(DayOf(t)))), SecondOfDay(t)))
  {
    CivilOfIsReal(DayOf(t));
    ReadName(CivilOf(DayOf(t)), SecondOfDay(t));
  }

  lemma FlooredParts(t: int)
    ensures Instant(DayOf(t), SecondOfDay(t)) == Floored(t)
  {
  }

  lemma NotBeforeItsYear(c: Civil)
    requires 1 <= c.month <= 12 && c.day >= 1
    ensures DayFromYear(c.year) <= DayNumber(c)
  {
    assert (c.month - 1) / 12 == 0 && (c.month - 1) % 12 == c.month - 1;
  }

  lemma ShiftedIsLater(c: Civil, shifted: Civil)
    requires RealDay(c) && c.year < shifted.year && shifted == Civil(shifted.year, c.month, c.day)
    ensures DayNumber(c) < DayNumber(shifted)
  {
    assert DayNumber(c) < DayFromYear(c.year + 1) by { InYear(c); }
    assert DayFromYear(c.year + 1) <= DayFromYear(shifted.year) by { YearsIncrease(c.year + 1, shifted.year); }
    assert DayFromYear(shifted.year) <= DayNumber(shifted) by { NotBeforeItsYear(shifted); }
  }

  lemma ReadValueIff(read: Option<int>, c: Civil, second: int)
    requires RealDay(c) && FourDigitYear(c) && read == Some(Instant(DayNumber(AsUtcReads(c)), second))
    ensures read == Some(Instant(DayNumber(c), second)) <==> c.year >= 100
  {
    if c.year <= 99 {
      assert DayNumber(c) < DayNumber(AsUtcReads(c)) by { ShiftedIsLater(c, AsUtcReads(c)); }
    }
  }

  /** Names read back as the instant floored to the second, exactly from the year 100 on. */
  lemma DumpNameRoundTripIff(t: int)
    requires FourDigitInstant(t)
    ensures DumpTimestamp(DumpFileName(t)) == Some(Floored(t)) <==> CivilOf(DayOf(t)).year >= 100
  {
    var read, c, day, second := DumpTimestamp(DumpFileName(t)), CivilOf(DayOf(t)), DayOf(t), SecondOfDay(t);
    assert read == Some(Instant(DayNumber(AsUtcReads(c)), second)) by { ReadBack(t); }
    assert RealDay(c) && DayNumber(c) == day by { CivilOfIsReal(day); }
    assert Instant(day, second) == Floored(t) by { FlooredParts(t); }
    ReadValueIff(read, c, second);
  }

  /** The order of names is the order of instants, to the second. */
  lemma NameOrderIsTimeOrder(t: int, u: int)
    requires FourDigitInstant(t) && FourDigitInstant(u)
    ensures DumpFileName(t) == DumpFileName(u) <==> Floored(t) == Floored(u)
    ensures Before(DumpFileName(t), DumpFileName(u)) <==> Floored(t) < Floored(u)
  {
    var c, d, s, r := CivilOf(DayOf(t)), CivilOf(DayOf(u)), SecondOfDay(t), SecondOfDay(u);
    CivilOfIsReal(DayOf(t));
    CivilOfIsReal(DayOf(u));
    NameOrder(CompactDate(c), Clock(s), CompactDate(d), Clock(r));
    DateOrder(c, d);
    ClockOrder(s, r);
    NumbersAreOrder(c, d);
    FloorOrder(t, u);
  }

  lemma FloorOrder(t: int, u: int)
    ensures Floored(t) < Floored(u) <==> DayOf(t) < DayOf(u) || (DayOf(t) == DayOf(u) && SecondOfDay(t) < SecondOfDay(u))
    ensures Floored(t) == Floored(u) <==> DayOf(t) == DayOf(u) && SecondOfDay(t) == SecondOfDay(u)
  {
    FlooredParts(t);
    FlooredParts(u);
  }

  lemma NameOrder(date: string, clock: string, date': string, clock': string)
    requires |date| == 8 == |date'| && |clock| == 6 == |clock'|
    ensures
      var n, m := PREFIX + date + "T" + clock + SUFFIX, PREFIX + date' + "T" + clock' + SUFFIX;
      && (n == m <==> date == date' && clock == clock')
      && (Before(n, m) <==> Before(date, date') || (date == date' && Before(clock, clock')))
  {
    NameParts(date, clock);
    NameParts(date', clock');
    NamesCompare(date, clock, date', clock');
  }

  lemma NamesCompare(date: string, clock: string, date': string, clock': string)
    requires |date| == |date'| && |clock| == |clock'|
    ensures Before(PREFIX + date + "T" + clock + SUFFIX, PREFIX + date' + "T" + clock' + SUFFIX) <==>
              Before(date, date') || (date == date' && Before(clock, clock'))
  {
    Framed(PREFIX, date, "T", clock, SUFFIX, date', clock');
  }

  lemma Regroup(p: string, a: string, q: string, b: string, z: string)
    ensures p + a + q + b + z == p + (a + (q + (b + z)))
  {
  }

  lemma Framed(p: string, a: string, q: string, b: string, z: string, a': string, b': string)
    requires |a| == |a'| && |b| == |b'|
    ensures Before(p + a + q + b + z, p + a' + q + b' + z) <==> Before(a, a') || (a == a' && Before(b, b'))
  {
    Regroup(p, a, q, b, z);
    Regroup(p, a', q, b', z);
    CommonPrefix(p, a + (q + (b + z)), a' + (q + (b' + z)));
    FieldsCompare(a, q + (b + z), a', q + (b' + z));
    CommonPrefix(q, b + z, b' + z);
    FieldsCompare(b, z, b', z);
    NotBeforeItself(z);
  }

  lemma CommonPrefix(p: string, a: string, b: string)
    ensures Before(p + a, p + b) <==> Before(a, b)
  {
    FieldsCompare(p, a, p, b);
    NotBeforeItself(p);
  }

  lemma {:induction false} NotBeforeItself(s: string)
    ensures !Before(s, s)
  {
    if s != "" { NotBeforeItself(s[1..]); }
  }

  lemma DateOrder(c: Civil, d: Civil)
    requires RealDay(c) && FourDigitYear(c) && RealDay(d) && FourDigitYear(d)
    ensures Before(CompactDate(c), CompactDate(d)) <==> Earlier(c, d)
    ensures CompactDate(c) == CompactDate(d) <==> c == d
  {
    Pow10Values();
    DayIsTwoDigits(c);
    DayIsTwoDigits(d);
    PadOrder(c.year, d.year, 4);
    PadOrder(c.month, d.month, 2);
    PadOrder(c.day, d.day, 2);
    CompactFields(c);
    CompactFields(d);
    ThreeFields(Pad(c.year, 4), Pad(c.month, 2), Pad(c.day, 2), Pad(d.year, 4), Pad(d.month, 2), Pad(d.day, 2));
  }

  lemma ClockOrder(s: int, r: int)
    requires 0 <= s < 86_400 && 0 <= r < 86_400
    ensures Before(Clock(s), Clock(r)) <==> s < r
    ensures Clock(s) == Clock(r) <==> s == r
  {
    Pow10Values();
    PadOrder(s / 3600, r / 3600, 2);
    PadOrder(s / 60 % 60, r / 60 % 60, 2);
    PadOrder(s % 60, r % 60, 2);
    ClockFields(s);
    ClockFields(r);
    ThreeFields(Pad(s / 3600, 2), Pad(s / 60 % 60, 2), Pad(s % 60, 2),
                Pad(r / 3600, 2), Pad(r / 60 % 60, 2), Pad(r % 60, 2));
  }

  lemma ThreeFields(x: string, y: string, z: string, x': string, y': string, z': string)
    requires |x| == |x'| && |y| == |y'|
    ensures Before(x + y + z, x' + y' + z') <==>
              Before(x, x') || (x == x' && (Before(y, y') || (y == y' && Before(z, z'))))
  {
    assert x + y + z == x + (y + z) && x' + y' + z' == x' + (y' + z');
    FieldsCompare(x, y + z, x', y' + z');
    FieldsCompare(y, z, y', z');
  }

  // ---------------------------------------------------------------------------
  // Retention
  // ---------------------------------------------------------------------------

  datatype DumpOutcome = DumpFailed | DumpEmpty | DumpWritten

  datatype BackupReport = BackupReport(created: string, pruned: seq<string>)

  datatype BackupError = InvalidRetention | CommandFailed | EmptyDump

  /** A name this script recognises, strictly older than R days. */
  predicate Outdated(name: string, now: int, retentionDays: int) {
    DumpTimestamp(name).Some? && DumpTimestamp(name).value < now - retentionDays * DAY_MS
  }

  function Retained(names: set<string>, now: int, retentionDays: int): set<string>
    requires FourDigitInstant(now)
  {
    (set n | n in names && !Outdated(n, now, retentionDays)) + {DumpFileName(now)}
  }

  class BackupDirectory {
    var names: set<string>

    constructor ()
      ensures names == {}
    {
      names := {};
    }

    method RunBackup(retentionDays: int, now: int, dump: DumpOutcome) returns (r: Result<BackupReport, BackupError>)
      requires FourDigitInstant(now)
      modifies `names
      ensures r == Err(InvalidRetention) <==> retentionDays < 1
      ensures retentionDays < 1 ==> names == old(names)
      ensures retentionDays >= 1 && dump != DumpWritten ==> r.Err? && names == old(names) - {DumpFileName(now)}
      ensures r.Ok? <==> retentionDays >= 1 && dump == DumpWritten
      ensures r.Ok? ==>
                && names == Retained(old(names), now, retentionDays)
                && r.value.created == DumpFileName(now)
                && (forall n :: n in r.value.pruned <==> n in old(names) && n !in names)
                && |r.value.pruned| == |old(names) - names|
    {
      if retentionDays < 1 { return Err(InvalidRetention); }
      var created := DumpFileName(now);
      names := names + {created};
      if dump == DumpFailed {
        names := names - {created};
        return Err(CommandFailed);
      }
      if dump == DumpEmpty {
        names := names - {created};
        return Err(EmptyDump);
      }
      var pruned := Prune(retentionDays, now, created);
      assert names == Retained(old(names), now, retentionDays);
      assert (old(names) + {created}) - names == old(names) - names;
      return Ok(BackupReport(created, pruned));
    }

    /** Visits every name once and unlinks the outdated ones but the new dump. */
    method Prune(retentionDays: int, now: int, created: string) returns (pruned: seq<string>)
      requires created in names
      modifies `names
      ensures names == set n | n in old(names) && (n == created || !Outdated(n, now, retentionDays))
      ensures (forall n :: n in pruned <==> n in old(names) - names) && |pruned| == |old(names) - names|
    {
      var limit := now - retentionDays * DAY_MS;
      pruned := [];
      ghost var gone: set<string> := {};
      var todo := names;
      while todo != {}
        invariant todo <= old(names) && gone <= old(names) - todo && names == old(names) - gone
        invariant forall n <- old(names) - todo :: n in gone <==> n != created && Outdated(n, now, retentionDays)
        invariant (forall n :: n in pruned <==> n in gone) && |pruned| == |gone|
        decreases todo
      {
        var name :| name in todo;
        todo := todo - {name};
        if name != created {
          var stamp := DumpTimestamp(name);
          if stamp.Some? && stamp.value < limit {
            names := names - {name};
            pruned := pruned + [name];
            gone := gone + {name};
          }
        }
      }
      assert old(names) - names == gone;
    }
  }

  // ---------------------------------------------------------------------------
  // Runs of backups
  // ---------------------------------------------------------------------------

  datatype Backup = Backup(now: int, retentionDays: int, dump: DumpOutcome)

  ghost predicate Datable(b: Backup) { CivilOf(DayOf(b.now)).year >= 100 }

  ghost predicate AllFourDigit(runs: seq<Backup>) {
    forall i :: 0 <= i < |runs| ==> FourDigitInstant(runs[i].now)
  }

  function AfterOne(names: set<string>, b: Backup): set<string>
    requires FourDigitInstant(b.now)
  {
    if b.retentionDays < 1 then names
    else if b.dump != DumpWritten then names - {DumpFileName(b.now)}
    else Retained(names, b.now, b.retentionDays)
  }

  ghost function AfterAll(names: set<string>, runs: seq<Backup>): set<string>
    requires AllFourDigit(runs)
  {
    if runs == [] then names
    else AfterOne(AfterAll(names, runs[..|runs| - 1]), runs[|runs| - 1])
  }

  /** A file the script did not name is never deleted, nor made. */
  lemma {:induction false} StrangersAreSafe(names: set<string>, runs: seq<Backup>, name: string)
    requires AllFourDigit(runs) && forall i :: 0 <= i < |runs| ==> Datable(runs[i])
    requires DumpTimestamp(name) == None
    ensures name in AfterAll(names, runs) <==> name in names
  {
    if runs != [] {
      StrangersAreSafe(names, runs[..|runs| - 1], name);
      NotAName(runs[|runs| - 1].now, name);
    }
  }

  lemma NotAName(t: int, name: string)
    requires FourDigitInstant(t) && CivilOf(DayOf(t)).year >= 100 && DumpTimestamp(name) == None
    ensures name != DumpFileName(t)
  {
    DumpNameRoundTripIff(t);
  }

  /** A run that lets a dump live: not past its retention, and not a failure under its very name. */
  ghost predicate Spares(b: Backup, name: string)
    requires FourDigitInstant(b.now)
  {
    !Outdated(name, b.now, b.retentionDays) && (b.dump != DumpWritten && b.retentionDays >= 1 ==> name != DumpFileName(b.now))
  }

  lemma {:induction false} SparedDumpsLive(names: set<string>, runs: seq<Backup>, name: string)
    requires AllFourDigit(runs) && forall i :: 0 <= i < |runs| ==> Spares(runs[i], name)
    requires name in names
    ensures name in AfterAll(names, runs)
  {
    if runs != [] { SparedDumpsLive(names, runs[..|runs| - 1], name); }
  }

  /**
    After a successful run, whatever ran before: every dump left is at most R days old, the new
    one is there, and nothing younger was taken away.
   */
  lemma RetentionIsBounded(names: set<string>, runs: seq<Backup>, b: Backup)
    requires AllFourDigit(runs) && FourDigitInstant(b.now)
    requires Datable(b) && b.retentionDays >= 1 && b.dump == DumpWritten
    ensures
      var before, after := AfterAll(names, runs), AfterAll(names, runs + [b]);
      && DumpFileName(b.now) in after
      && (forall n <- after :: !Outdated(n, b.now, b.retentionDays))
      && (forall n <- before :: n !in after ==> Outdated(n, b.now, b.retentionDays))
  {
    assert (runs + [b])[..|runs|] == runs;
    DumpNameRoundTripIff(b.now);
  }
}
