/** The migration runner (scripts/migrate.ts): file texts, file lists, and the loop over them. */
module Migrations {
  import opened Characters
  import opened Wrappers
  import opened Digits

  // ---------------------------------------------------------------------------
  // Texts
  // ---------------------------------------------------------------------------

  /** content.replace(/\r\n/g, '\n') */
  function NormalizeLf(s: string): string {
    if s == "" then ""
    else if |s| >= 2 && s[0] == '\r' && s[1] == '\n' then "\n" + NormalizeLf(s[2..])
    else [s[0]] + NormalizeLf(s[1..])
  }

  /** A checkout that turns the line ends picked by `mask` (by position) into CRLF. */
  function Checkout(s: string, mask: nat -> bool): string
    decreases |s|
  {
    if s == "" then ""
    else
      var before := Checkout(s[..|s| - 1], mask);
      if s[|s| - 1] == '\n' && mask(|s| - 1) then before + "\r\n" else before + [s[|s| - 1]]
  }

  predicate LfOnly(s: string) { forall i :: 0 < i < |s| && s[i] == '\n' ==> s[i - 1] != '\r' }

  /** Appending anything but a line feed right after a carriage return just appends. */
  lemma {:induction false} NormalizeSnoc(s: string, c: char)
    requires !(c == '\n' && s != "" && s[|s| - 1] == '\r')
    ensures NormalizeLf(s + [c]) == NormalizeLf(s) + [c]
  {
    if s == "" {
      assert s + [c] == [c];
    } else if |s| >= 2 && s[0] == '\r' && s[1] == '\n' {
      assert (s + [c])[2..] == s[2..] + [c];
      NormalizeSnoc(s[2..], c);
    } else {
      assert (s + [c])[1..] == s[1..] + [c];
      if |s| == 1 { assert s[1..] == ""; }
      NormalizeSnoc(s[1..], c);
    }
  }

  lemma {:induction false} NormalizeCrlf(s: string)
    ensures NormalizeLf(s + "\r\n") == NormalizeLf(s) + "\n"
  {
    if s == "" {
      assert s + "\r\n" == "\r\n";
    } else if |s| >= 2 && s[0] == '\r' && s[1] == '\n' {
      assert (s + "\r\n")[2..] == s[2..] + "\r\n";
      NormalizeCrlf(s[2..]);
    } else {
      assert (s + "\r\n")[1..] == s[1..] + "\r\n";
      NormalizeCrlf(s[1..]);
    }
  }

  lemma {:induction false} CheckoutEnd(s: string, mask: nat -> bool)
    requires s != ""
    ensures Checkout(s, mask) != "" && Checkout(s, mask)[|Checkout(s, mask)| - 1] == s[|s| - 1]
  {
  }

  /** A full checkout in CRLF normalises back to the content, whatever the content holds. */
  lemma {:induction false} NormalizeUndoesCheckout(s: string)
    ensures NormalizeLf(Checkout(s, _ => true)) == s
  {
    if s != "" {
      var front, c := s[..|s| - 1], s[|s| - 1];
      assert s == front + [c];
      NormalizeUndoesCheckout(front);
      if c == '\n' { NormalizeCrlf(Checkout(front, _ => true)); } else { NormalizeSnoc(Checkout(front, _ => true), c); }
    }
  }

  /** Any partial one does too, when the content itself holds no CRLF. */
  lemma {:induction false} NormalizeUndoesMixedCheckout(s: string, mask: nat -> bool)
    requires LfOnly(s)
    ensures NormalizeLf(Checkout(s, mask)) == s
    decreases |s|
  {
    if s != "" {
      var front, c := s[..|s| - 1], s[|s| - 1];
      assert s == front + [c];
      NormalizeUndoesMixedCheckout(front, mask);
      if c == '\n' && mask(|s| - 1) {
        NormalizeCrlf(Checkout(front, mask));
      } else {
        if front != "" { CheckoutEnd(front, mask); }
        NormalizeSnoc(Checkout(front, mask), c);
      }
    }
  }

  // ---------------------------------------------------------------------------
  // File lists
  // ---------------------------------------------------------------------------

  function Prefix(file: string): string { if |file| < 3 then file else file[..3] }

  predicate UniquePrefixes(files: seq<string>) {
    forall i, j :: 0 <= i < j < |files| ==> Prefix(files[i]) != Prefix(files[j])
  }

  /** The first file whose number was already seen, if any. */
  method AssertUniquePrefixes(files: seq<string>) returns (duplicate: Option<string>)
    ensures duplicate.None? <==> UniquePrefixes(files)
    ensures duplicate.Some? ==>
              exists i, j :: 0 <= i < j < |files| && files[j] == duplicate.value && Prefix(files[i]) == Prefix(files[j])
                             && UniquePrefixes(files[..j])
  {
    var seen: set<string> := {};
    var n := 0;
    while n < |files|
      invariant 0 <= n <= |files|
      invariant UniquePrefixes(files[..n])
      invariant forall p :: p in seen <==> exists i :: 0 <= i < n && Prefix(files[i]) == p
    {
      var prefix := Prefix(files[n]);
      if prefix in seen {
        var i :| 0 <= i < n && Prefix(files[i]) == prefix;
        return Some(files[n]);
      }
      seen := seen + {prefix};
      n := n + 1;
    }
    assert files[..n] == files;
    return None;
  }

  predicate Numbered(file: string) { |file| > 3 && AllDigits(file[..3]) }

  /** Sorted names with unique numbers are in the order of their numbers. */
  lemma SortedIsNumeric(a: string, b: string)
    requires Numbered(a) && Numbered(b) && Prefix(a) != Prefix(b)
    ensures Before(a, b) <==> Num(Prefix(a)) < Num(Prefix(b))
  {
    var p, q := a[..3], b[..3];
    assert a == p + a[3..] && b == q + b[3..];
    FieldsCompare(p, a[3..], q, b[3..]);
    PadOfNum(p);
    PadOfNum(q);
    PadOrder(Num(p), Num(q), 3);
  }

  // ---------------------------------------------------------------------------
  // Files that manage their own transaction
  // ---------------------------------------------------------------------------

  function TrimStart(s: string): string { if s != "" && IsSpace(s[0]) then TrimStart(s[1..]) else s }

  /** The text up to the first line feed, and what follows it. */
  function CutLine(s: string): (r: (string, Option<string>))
    ensures r.1.Some? ==> |r.1.value| < |s|
  {
    if s == "" then ("", None)
    else if s[0] == '\n' then ("", Some(s[1..]))
    else var (line, rest) := CutLine(s[1..]); ([s[0]] + line, rest)
  }

  predicate Skipped(line: string) { TrimStart(line) == "" || "--" <= TrimStart(line) }

  predicate WordChar(c: char) { IsDigit(c) || 'a' <= c <= 'z' || 'A' <= c <= 'Z' || c == '_' }

  /** /^BEGIN\b/i */
  predicate StartsWithBegin(s: string) {
    && |s| >= 5 && s[0] in {'B', 'b'} && s[1] in {'E', 'e'} && s[2] in {'G', 'g'} && s[3] in {'I', 'i'} && s[4] in {'N', 'n'}
    && (|s| == 5 || !WordChar(s[5]))
  }

  predicate IsSelfTransactional(content: string)
    decreases |content|
  {
    var (line, rest) := CutLine(content);
    if !Skipped(line) then StartsWithBegin(TrimStart(line))
    else rest.Some? && IsSelfTransactional(rest.value)
  }

  lemma {:induction false} CutLineOf(line: string, rest: string)
    requires '\n' !in line
    ensures CutLine(line + "\n" + rest) == (line, Some(rest))
  {
    if line == "" {
      assert line + "\n" + rest == "\n" + rest;
    } else {
      assert line[0] in line && line == [line[0]] + line[1..];
      assert (line + "\n" + rest)[1..] == line[1..] + "\n" + rest;
      CutLineOf(line[1..], rest);
    }
  }

  /** Comment and blank lines in front decide nothing. */
  lemma LeadingCommentsDecideNothing(line: string, rest: string)
    requires '\n' !in line && Skipped(line)
    ensures IsSelfTransactional(line + "\n" + rest) <==> IsSelfTransactional(rest)
  {
    CutLineOf(line, rest);
  }

  /** The lines of a text. */
  function Lines(s: string): (r: seq<string>)
    ensures r != []
    decreases |s|
  {
    var (line, rest) := CutLine(s);
    if rest.None? then [line] else [line] + Lines(rest.value)
  }

  function JoinLines(lines: seq<string>): string
    requires lines != []
  {
    if |lines| == 1 then lines[0] else lines[0] + "\n" + JoinLines(lines[1..])
  }

  lemma {:induction false} CutLineBack(s: string)
    ensures '\n' !in CutLine(s).0
    ensures s == if CutLine(s).1.Some? then CutLine(s).0 + "\n" + CutLine(s).1.value else CutLine(s).0
  {
    if s != "" && s[0] != '\n' {
      CutLineBack(s[1..]);
      assert s == [s[0]] + s[1..];
    } else if s != "" {
      assert s == "" + "\n" + s[1..];
    }
  }

  /** The lines hold no line feed, and put together again they are the text. */
  lemma {:induction false} LinesAreLines(s: string)
    ensures forall i :: 0 <= i < |Lines(s)| ==> '\n' !in Lines(s)[i]
    ensures JoinLines(Lines(s)) == s
    decreases |s|
  {
    CutLineBack(s);
    var (line, rest) := CutLine(s);
    if rest.Some? {
      LinesAreLines(rest.value);
      assert Lines(s)[1..] == Lines(rest.value);
    }
  }

  predicate AllSpace(s: string, p: nat)
    requires p <= |s|
  {
    forall i :: 0 <= i < p ==> IsSpace(s[i])
  }

  /** Past `p` characters of white space, the line has something that is no comment. */
  predicate SaysSomethingAt(line: string, p: nat) {
    p < |line| && AllSpace(line, p) && !IsSpace(line[p]) && !(line[p] == '-' && p + 1 < |line| && line[p + 1] == '-')
  }

  predicate SaysSomething(line: string) { exists p: nat :: p < |line| && SaysSomethingAt(line, p) }

  function Upper(c: char): char { if 'a' <= c <= 'z' then (c as int - 32) as char else c }

  /** Past white space, the word BEGIN in either case, and not the start of a longer word. */
  predicate BeginsAt(line: string, p: nat) {
    && p + 5 <= |line| && AllSpace(line, p)
    && Upper(line[p]) == 'B' && Upper(line[p + 1]) == 'E' && Upper(line[p + 2]) == 'G' && Upper(line[p + 3]) == 'I'
    && Upper(line[p + 4]) == 'N'
    && (p + 5 == |line| || !(IsDigit(line[p + 5]) || 'A' <= Upper(line[p + 5]) <= 'Z' || line[p + 5] == '_'))
  }

  predicate OpensTransaction(line: string) { exists p: nat :: p < |line| && BeginsAt(line, p) }

  /** White space comes first, and no more than that is trimmed. */
  lemma {:induction false} TrimmedAt(s: string) returns (p: nat)
    ensures p <= |s| && AllSpace(s, p) && TrimStart(s) == s[p..] && (p < |s| ==> !IsSpace(s[p]))
  {
    p := 0;
    if s != "" && IsSpace(s[0]) {
      p := TrimmedAt(s[1..]);
      assert forall i :: 0 <= i < p ==> s[1..][i] == s[i + 1];
      p := p + 1;
    }
  }

  /** There is one place where the white space in front ends. */
  lemma OnePlace(line: string, p: nat, q: nat)
    requires p < |line| && AllSpace(line, p) && !IsSpace(line[p])
    requires q < |line| && AllSpace(line, q) && !IsSpace(line[q])
    ensures p == q
  {
  }

  lemma LineDecides(line: string)
    ensures Skipped(line) <==> !SaysSomething(line)
    ensures !Skipped(line) ==> (StartsWithBegin(TrimStart(line)) <==> OpensTransaction(line))
  {
    var p := TrimmedAt(line);
    if p < |line| {
      SaysIff(line, p);
      BeginIff(line, p);
      if q: nat :| q < |line| && SaysSomethingAt(line, q) { OnePlace(line, p, q); }
      if q: nat :| q < |line| && BeginsAt(line, q) { OnePlace(line, p, q); }
    } else {
      NothingPastSpace(line);
    }
  }

  lemma NothingPastSpace(line: string)
    requires AllSpace(line, |line|)
    ensures !SaysSomething(line)
  {
  }

  lemma SaysIff(line: string, p: nat)
    requires p < |line| && AllSpace(line, p) && !IsSpace(line[p]) && TrimStart(line) == line[p..]
    ensures Skipped(line) <==> !SaysSomethingAt(line, p)
  {
    if p + 1 < |line| && line[p] == '-' && line[p + 1] == '-' { assert "--" <= line[p..]; }
  }

  lemma BeginIff(line: string, p: nat)
    requires p < |line| && AllSpace(line, p) && TrimStart(line) == line[p..]
    ensures StartsWithBegin(TrimStart(line)) <==> BeginsAt(line, p)
  {
    var s := line[p..];
    if p + 5 <= |line| { assert s[0] == line[p] && s[1] == line[p + 1] && s[2] == line[p + 2] && s[3] == line[p + 3] && s[4] == line[p + 4]; }
    if p + 5 < |line| { assert s[5] == line[p + 5]; }
  }

  /** The first line that says something; the number of lines if none does. */
  function FirstSaying(lines: seq<string>): (i: nat)
    ensures i <= |lines|
    ensures forall j :: 0 <= j < i ==> !SaysSomething(lines[j])
    ensures i < |lines| ==> SaysSomething(lines[i])
  {
    if lines == [] || SaysSomething(lines[0]) then 0 else 1 + FirstSaying(lines[1..])
  }

  /** A file wraps itself exactly when the first of its lines that says something opens a transaction. */
  lemma {:induction false} SelfTransactionalIff(content: string)
    ensures
      var lines := Lines(content);
      var first := FirstSaying(lines);
      IsSelfTransactional(content) <==> first < |lines| && OpensTransaction(lines[first])
    decreases |content|
  {
    var (line, rest) := CutLine(content);
    LineDecides(line);
    assert Lines(content)[0] == line;
    if Skipped(line) && rest.Some? {
      SelfTransactionalIff(rest.value);
      assert Lines(content)[1..] == Lines(rest.value);
    }
  }

  // ---------------------------------------------------------------------------
  // One runner, undisturbed
  // ---------------------------------------------------------------------------

  /** A file as read: its normalised text decides its checksum and whether it wraps itself. */
  datatype File = File(name: string, checksum: string, selfTransactional: bool)

  /** What is committed: the recorded checksums, and the names whose content took effect, in order. */
  datatype Db = Db(applied: map<string, string>, effects: seq<string>)

  function Effect(db: Db, file: File): Db { db.(effects := db.effects + [file.name]) }

  function Record(db: Db, file: File): Db { db.(applied := db.applied[file.name := file.checksum]) }

  datatype Outcome = UpToDate | ChangedAfterwards(file: string) | ContentFailed(file: string)

  /** The files from `i` on, against what was applied when the runner looked. */
  function Migrated(db: Db, seen: map<string, string>, files: seq<File>, i: nat, fails: string -> bool): (Db, Outcome)
    requires i <= |files|
    decreases |files| - i
  {
    if i == |files| then (db, UpToDate)
    else
      var f := files[i];
      if f.name in seen then
        if seen[f.name] != f.checksum then (db, ChangedAfterwards(f.name)) else Migrated(db, seen, files, i + 1, fails)
      else if fails(f.name) then (db, ContentFailed(f.name))
      else Migrated(Record(Effect(db, f), f), seen, files, i + 1, fails)
  }

  class Migrator {
    var db: Db

    constructor (db: Db)
      ensures this.db == db
    {
      this.db := db;
    }

    method RunMigrations(files: seq<File>, fails: string -> bool) returns (r: Outcome)
      modifies `db
      ensures (db, r) == Migrated(old(db), old(db).applied, files, 0, fails)
    {
      var seen := db.applied;
      var i := 0;
      while i < |files|
        invariant 0 <= i <= |files|
        invariant Migrated(old(db), seen, files, 0, fails) == Migrated(db, seen, files, i, fails)
      {
        var f := files[i];
        if f.name in seen {
          if seen[f.name] != f.checksum { return ChangedAfterwards(f.name); }
        } else {
          if fails(f.name) { return ContentFailed(f.name); }
          db := Effect(db, f);
          db := Record(db, f);
        }
        i := i + 1;
      }
      return UpToDate;
    }
  }

  predicate DistinctNames(files: seq<File>) {
    forall i, j :: 0 <= i < j < |files| ==> files[i].name != files[j].name
  }

  /**
    A run that ends up to date has every file recorded under its own checksum; a file changed
    after its application stops the run there, with every record as it was.
   */
  lemma {:induction false} UpToDateIff(db: Db, seen: map<string, string>, files: seq<File>, i: nat, fails: string -> bool)
    requires i <= |files| && DistinctNames(files)
    requires forall n <- seen :: n in db.applied && db.applied[n] == seen[n]
    ensures
      var (end, r) := Migrated(db, seen, files, i, fails);
      && (r == UpToDate <==> forall k :: i <= k < |files| ==>
            if files[k].name in seen then seen[files[k].name] == files[k].checksum else !fails(files[k].name))
      && (r == UpToDate ==> forall k :: i <= k < |files| ==>
            files[k].name in end.applied && end.applied[files[k].name] == files[k].checksum)
      && (forall n <- seen :: n in end.applied && end.applied[n] == seen[n])
      && (forall n <- end.applied :: n in db.applied || exists k :: i <= k < |files| && files[k].name == n)
      && (forall n <- db.applied :: (forall k :: i <= k < |files| ==> files[k].name != n) ==>
            n in end.applied && end.applied[n] == db.applied[n])
    decreases |files| - i
  {
    if i < |files| {
      var f := files[i];
      if f.name in seen {
        if seen[f.name] == f.checksum { UpToDateIff(db, seen, files, i + 1, fails); }
      } else if !fails(f.name) {
        UpToDateIff(Record(Effect(db, f), f), seen, files, i + 1, fails);
      }
    }
  }

  /** The names of files[i..j] that the runner had not seen applied, in order. */
  function Unseen(files: seq<File>, seen: map<string, string>, i: nat, j: nat): seq<string>
    requires i <= j <= |files|
    decreases j - i
  {
    if i == j then []
    else (if files[i].name in seen then [] else [files[i].name]) + Unseen(files, seen, i + 1, j)
  }

  /** Whether the run gets past a file: unchanged since it was applied, or new and accepted. */
  predicate Passes(f: File, seen: map<string, string>, fails: string -> bool) {
    if f.name in seen then seen[f.name] == f.checksum else !fails(f.name)
  }

  /** The first file, from `i` on, that the run cannot pass. */
  function FirstFault(files: seq<File>, seen: map<string, string>, i: nat, fails: string -> bool): (stop: nat)
    requires i <= |files|
    ensures i <= stop <= |files|
    ensures forall k :: i <= k < stop ==> Passes(files[k], seen, fails)
    ensures stop < |files| ==> !Passes(files[stop], seen, fails)
    decreases |files| - i
  {
    if i == |files| || !Passes(files[i], seen, fails) then i else FirstFault(files, seen, i + 1, fails)
  }

  lemma UnseenFrom(files: seq<File>, seen: map<string, string>, i: nat, j: nat)
    requires i < j <= |files|
    ensures Unseen(files, seen, i, j) == (if files[i].name in seen then [] else [files[i].name]) + Unseen(files, seen, i + 1, j)
  {
  }

  lemma Regrouped(a: seq<string>, b: seq<string>, c: seq<string>)
    ensures (a + b) + c == a + (b + c)
  {
  }

  /** A run is up to date when it passes every file; otherwise it names the first it cannot pass and says whether it changed or failed. */
  lemma {:induction false} AnswerIsFirstFault(db: Db, seen: map<string, string>, files: seq<File>, i: nat, fails: string -> bool)
    requires i <= |files|
    ensures
      var stop := FirstFault(files, seen, i, fails);
      Migrated(db, seen, files, i, fails).1 ==
        (if stop == |files| then UpToDate
         else if files[stop].name in seen then ChangedAfterwards(files[stop].name)
         else ContentFailed(files[stop].name))
    decreases |files| - i
  {
    if i < FirstFault(files, seen, i, fails) {
      var f := files[i];
      AnswerIsFirstFault(if f.name in seen then db else Record(Effect(db, f), f), seen, files, i + 1, fails);
    }
  }

  /** A run takes effect for the unseen files before the first one it cannot pass, each once and in order. */
  lemma {:induction false} EffectsUpToFirstFault(db: Db, seen: map<string, string>, files: seq<File>, i: nat, fails: string -> bool)
    requires i <= |files|
    ensures Migrated(db, seen, files, i, fails).0.effects ==
            db.effects + Unseen(files, seen, i, FirstFault(files, seen, i, fails))
    decreases |files| - i
  {
    var stop := FirstFault(files, seen, i, fails);
    if i == stop {
      assert db.effects + [] == db.effects;
    } else {
      var f := files[i];
      var own := if f.name in seen then [] else [f.name];
      var next := if f.name in seen then db else Record(Effect(db, f), f);
      assert next.effects == db.effects + own;
      EffectsUpToFirstFault(next, seen, files, i + 1, fails);
      UnseenFrom(files, seen, i, stop);
      Regrouped(db.effects, own, Unseen(files, seen, i + 1, stop));
    }
  }

  /** The same files are recorded, each under its own checksum, and no record is added besides. */
  lemma {:induction false} RecordsUpToFirstFault(db: Db, seen: map<string, string>, files: seq<File>, i: nat, fails: string -> bool, n: string)
    requires i <= |files| && DistinctNames(files)
    ensures
      var end := Migrated(db, seen, files, i, fails).0;
      var stop := FirstFault(files, seen, i, fails);
      && (n in end.applied <==> n in db.applied || exists k :: i <= k < stop && files[k].name == n && n !in seen)
      && (forall k :: i <= k < stop && files[k].name == n && n !in seen ==>
            n in end.applied && end.applied[n] == files[k].checksum)
      && ((forall k :: i <= k < stop ==> files[k].name != n || n in seen) && n in db.applied ==>
            n in end.applied && end.applied[n] == db.applied[n])
    decreases |files| - i
  {
    if i < FirstFault(files, seen, i, fails) {
      var f := files[i];
      RecordsUpToFirstFault(if f.name in seen then db else Record(Effect(db, f), f), seen, files, i + 1, fails, n);
    }
  }
}
