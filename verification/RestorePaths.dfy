/** The file names a journaled restore works with (internal/backup/path_identity.go and the name
    builders at the end of internal/backup/restore_journal.go).

    The restore protocol is only safe when no two of its files are the same file.  The names are
    built from the two target paths, so that is a fact about strings: it has to follow from the
    checks made on the target pair, also on a file system that folds letter case. */
module RestorePaths {

  /** A cleaned absolute path, split into its directory and its last element. */
  datatype Path = Path(dir: string, base: string)

  /** The four files a restore replaces or removes. */
  datatype Which = Config | Database | Wal | Shm

  /** Every file a restore touches, by role. */
  datatype Name =
    | Target(which: Which)
    | Candidate(which: Which, transaction: string)
    | Previous(which: Which, transaction: string)
    | JournalFile

  const JOURNAL_SUFFIX := ".depsilo.restore.json"

  // ---------------------------------------------------------------- path identity

  function FoldChar(c: char): char {
    if 'A' <= c <= 'Z' then c - 'A' + 'a' else c
  }

  /** The identity of a string: letter case is dropped where the platform folds it. */
  function IdentityKey(s: string, foldsCase: bool): (key: string)
    ensures |key| == |s|
  {
    if foldsCase then seq(|s|, i requires 0 <= i < |s| => FoldChar(s[i])) else s
  }

  predicate SamePath(p: Path, q: Path, foldsCase: bool) {
    IdentityKey(p.dir, foldsCase) == IdentityKey(q.dir, foldsCase) &&
    IdentityKey(p.base, foldsCase) == IdentityKey(q.base, foldsCase)
  }

  predicate HasPrefix(s: string, prefix: string) {
    |prefix| <= |s| && s[..|prefix|] == prefix
  }

  predicate HasSuffix(s: string, suffix: string) {
    |suffix| <= |s| && s[|s| - |suffix|..] == suffix
  }

  predicate Contains(s: string, part: string) {
    exists i | 0 <= i <= |s| :: HasPrefix(s[i..], part)
  }

  /** The full text of a path, as the containment check reads it. */
  function Text(p: Path): string {
    if p.dir == "/" then "/" + p.base else p.dir + "/" + p.base
  }

  predicate InsideDirectory(path: Path, directory: Path, foldsCase: bool) {
    var pathKey := IdentityKey(Text(path), foldsCase);
    var directoryKey := IdentityKey(Text(directory), foldsCase);
    pathKey == directoryKey || HasPrefix(pathKey, directoryKey + "/")
  }

  // ---------------------------------------------------------------- the accepted target pairs

  predicate ReservedBasename(base: string, foldsCase: bool) {
    var key := IdentityKey(base, foldsCase);
    HasSuffix(key, "-wal") || HasSuffix(key, "-shm") ||
    HasSuffix(key, ".depsilo.lock") || HasSuffix(key, JOURNAL_SUFFIX) ||
    Contains(key, ".restore-") || Contains(key, ".pre-restore-") || key == ".depsilo-locks"
  }

  function Beside(target: Path, suffix: string): Path {
    Path(target.dir, target.base + suffix)
  }

  /** The checks on a config and a database target, in the order the program makes them. */
  predicate ValidTargetPair(config: Path, database: Path, foldsCase: bool) {
    && !SamePath(config, database, foldsCase)
    && !SamePath(config, Beside(database, "-wal"), foldsCase)
    && !SamePath(config, Beside(database, "-shm"), foldsCase)
    && !SamePath(config, Beside(database, ".depsilo.lock"), foldsCase)
    && !SamePath(config, Beside(database, JOURNAL_SUFFIX), foldsCase)
    && !ReservedBasename(database.base, foldsCase)
    && !ReservedBasename(config.base, foldsCase)
    && !HasPrefix(IdentityKey(config.base, foldsCase), IdentityKey("." + database.base + ".restore-", foldsCase))
    && !HasPrefix(IdentityKey(config.base, foldsCase), IdentityKey(database.base + ".pre-restore-", foldsCase))
    && var locks := Path(database.dir, ".depsilo-locks");
       !InsideDirectory(config, locks, foldsCase) && !InsideDirectory(database, locks, foldsCase)
  }

  // ---------------------------------------------------------------- the names themselves

  predicate HexDigit(c: char) {
    '0' <= c <= '9' || 'a' <= c <= 'f'
  }

  /** A transaction id as the program makes it: 16 random bytes in lower-case hex. */
  predicate ValidTransaction(transaction: string) {
    |transaction| == 32 && forall i | 0 <= i < |transaction| :: HexDigit(transaction[i])
  }

  function TargetPath(which: Which, config: Path, database: Path): Path {
    match which
    case Config => config
    case Database => database
    case Wal => Beside(database, "-wal")
    case Shm => Beside(database, "-shm")
  }

  function PathOf(name: Name, config: Path, database: Path): Path {
    match name
    case Target(which) => TargetPath(which, config, database)
    case Candidate(which, transaction) =>
      var target := TargetPath(which, config, database);
      Path(target.dir, "." + target.base + ".restore-" + transaction)
    case Previous(which, transaction) =>
      var target := TargetPath(which, config, database);
      Path(target.dir, target.base + ".pre-restore-" + transaction + ".bak")
    case JournalFile => Beside(database, JOURNAL_SUFFIX)
  }

  /** The names a restore can use: only the config and the database have a candidate. */
  predicate Usable(name: Name) {
    match name
    case Target(_) => true
    case Candidate(which, transaction) => which in {Config, Database} && ValidTransaction(transaction)
    case Previous(_, transaction) => ValidTransaction(transaction)
    case JournalFile => true
  }

  // ---------------------------------------------------------------- distinctness

  lemma KeyOfConcat(a: string, b: string, foldsCase: bool)
    ensures IdentityKey(a + b, foldsCase) == IdentityKey(a, foldsCase) + IdentityKey(b, foldsCase)
  {
  }

  /** A transaction id and the fixed parts of the names are already in lower case. */
  lemma KeyOfLower(s: string, foldsCase: bool)
    requires forall i | 0 <= i < |s| :: !('A' <= s[i] <= 'Z')
    ensures IdentityKey(s, foldsCase) == s
  {
  }

  lemma SplitSuffix(a: string, s: string, b: string, t: string)
    requires a + s == b + t && |s| == |t|
    ensures a == b && s == t
  {
    assert (a + s)[..|a|] == a && (b + t)[..|b|] == b;
    assert (a + s)[|a|..] == s && (b + t)[|b|..] == t;
  }

  lemma ContainsMiddle(a: string, part: string, b: string)
    ensures Contains(a + part + b, part)
  {
    assert (a + part + b)[|a|..] == part + b;
  }

  function TargetKey(which: Which, config: string, database: string): string {
    match which
    case Config => config
    case Database => database
    case Wal => database + "-wal"
    case Shm => database + "-shm"
  }

  /** The last element of a name, from the identity keys of the two target names. */
  function BaseKey(name: Name, config: string, database: string): string {
    match name
    case Target(which) => TargetKey(which, config, database)
    case Candidate(which, transaction) => "." + TargetKey(which, config, database) + ".restore-" + transaction
    case Previous(which, transaction) => TargetKey(which, config, database) + ".pre-restore-" + transaction + ".bak"
    case JournalFile => database + JOURNAL_SUFFIX
  }

  lemma TargetKeyOf(which: Which, config: Path, database: Path, foldsCase: bool)
    ensures IdentityKey(TargetPath(which, config, database).base, foldsCase)
         == TargetKey(which, IdentityKey(config.base, foldsCase), IdentityKey(database.base, foldsCase))
  {
    KeyOfConcat(database.base, "-wal", foldsCase);
    KeyOfConcat(database.base, "-shm", foldsCase);
    KeyOfLower("-wal", foldsCase);
    KeyOfLower("-shm", foldsCase);
  }

  lemma BaseKeyOf(name: Name, config: Path, database: Path, foldsCase: bool)
    requires Usable(name)
    ensures IdentityKey(PathOf(name, config, database).base, foldsCase)
         == BaseKey(name, IdentityKey(config.base, foldsCase), IdentityKey(database.base, foldsCase))
  {
    match name
    case Target(which) => TargetKeyOf(which, config, database, foldsCase);
    case Candidate(which, transaction) =>
      TargetKeyOf(which, config, database, foldsCase);
      var base := TargetPath(which, config, database).base;
      KeyOfConcat("." + base + ".restore-", transaction, foldsCase);
      KeyOfConcat("." + base, ".restore-", foldsCase);
      KeyOfConcat(".", base, foldsCase);
      KeyOfLower(transaction, foldsCase);
      KeyOfLower(".restore-", foldsCase);
      KeyOfLower(".", foldsCase);
    case Previous(which, transaction) =>
      TargetKeyOf(which, config, database, foldsCase);
      var base := TargetPath(which, config, database).base;
      KeyOfConcat(base + ".pre-restore-" + transaction, ".bak", foldsCase);
      KeyOfConcat(base + ".pre-restore-", transaction, foldsCase);
      KeyOfConcat(base, ".pre-restore-", foldsCase);
      KeyOfLower(transaction, foldsCase);
      KeyOfLower(".pre-restore-", foldsCase);
      KeyOfLower(".bak", foldsCase);
    case JournalFile =>
      KeyOfConcat(database.base, JOURNAL_SUFFIX, foldsCase);
      KeyOfLower(JOURNAL_SUFFIX, foldsCase);
  }

  /** What a name ends in tells its role apart from every other role but that of a live target. */
  lemma Ending(name: Name, config: string, database: string)
    requires Usable(name)
    ensures var key := BaseKey(name, config, database);
            match name
            case Target(Wal) => |key| > 0 && key[|key| - 1] == 'l'
            case Target(Shm) => |key| > 0 && key[|key| - 1] == 'm'
            case Target(_) => true
            case Candidate(_, _) => |key| > 0 && HexDigit(key[|key| - 1])
            case Previous(_, _) => |key| > 0 && key[|key| - 1] == 'k'
            case JournalFile => |key| > 0 && key[|key| - 1] == 'n'
  {
    if name.JournalFile? {
      assert JOURNAL_SUFFIX[|JOURNAL_SUFFIX| - 1] == 'n';
    }
  }

  /** The names reserved for candidates and saved copies are refused as target names. */
  lemma MarkedNames(name: Name, config: string, database: string)
    requires Usable(name) && (name.Candidate? || name.Previous?)
    ensures Contains(BaseKey(name, config, database), ".restore-") ||
            Contains(BaseKey(name, config, database), ".pre-restore-")
  {
    var key := TargetKey(name.which, config, database);
    if name.Candidate? {
      ContainsMiddle("." + key, ".restore-", name.transaction);
    } else {
      ContainsMiddle(key, ".pre-restore-", name.transaction + ".bak");
      assert BaseKey(name, config, database) == key + ".pre-restore-" + (name.transaction + ".bak");
    }
  }

  /** Two names of one role with equal last elements belong to targets with equal names. */
  lemma SameRole(a: Name, b: Name, config: string, database: string)
    requires Usable(a) && Usable(b)
    requires BaseKey(a, config, database) == BaseKey(b, config, database)
    requires (a.Candidate? && b.Candidate?) || (a.Previous? && b.Previous?)
    ensures a.transaction == b.transaction
    ensures TargetKey(a.which, config, database) == TargetKey(b.which, config, database)
  {
    var ka, kb := TargetKey(a.which, config, database), TargetKey(b.which, config, database);
    if a.Candidate? {
      SplitSuffix("." + ka + ".restore-", a.transaction, "." + kb + ".restore-", b.transaction);
      SplitSuffix("." + ka, ".restore-", "." + kb, ".restore-");
      assert ("." + ka)[1..] == ka && ("." + kb)[1..] == kb;
    } else {
      SplitSuffix(ka + ".pre-restore-" + a.transaction, ".bak", kb + ".pre-restore-" + b.transaction, ".bak");
      SplitSuffix(ka + ".pre-restore-", a.transaction, kb + ".pre-restore-", b.transaction);
      SplitSuffix(ka, ".pre-restore-", kb, ".pre-restore-");
    }
  }

  /** The database and its two sidecars are three different files. */
  lemma SidecarsDiffer(v: Which, w: Which, database: Path, foldsCase: bool)
    requires v != w && v != Config && w != Config
    ensures !SamePath(TargetPath(v, database, database), TargetPath(w, database, database), foldsCase)
  {
    TargetKeyOf(v, database, database, foldsCase);
    TargetKeyOf(w, database, database, foldsCase);
    var key := IdentityKey(database.base, foldsCase);
    assert (key + "-wal")[|key| + 1] == 'w' && (key + "-shm")[|key| + 1] == 's';
  }

  /** The four live targets of an accepted pair are four different files. */
  lemma TargetsDiffer(v: Which, w: Which, config: Path, database: Path, foldsCase: bool)
    requires ValidTargetPair(config, database, foldsCase) && v != w
    ensures !SamePath(TargetPath(v, config, database), TargetPath(w, config, database), foldsCase)
  {
    if v.Config? || w.Config? {
      assert forall p: Path, q: Path :: SamePath(p, q, foldsCase) <==> SamePath(q, p, foldsCase);
    } else {
      SidecarsDiffer(v, w, database, foldsCase);
    }
  }

  /** A live target is never the journal, a candidate or a saved copy. */
  lemma TargetIsNoWorkFile(which: Which, other: Name, config: Path, database: Path, foldsCase: bool)
    requires ValidTargetPair(config, database, foldsCase)
    requires Usable(other) && !other.Target?
    ensures !SamePath(TargetPath(which, config, database), PathOf(other, config, database), foldsCase)
  {
    var c, d := IdentityKey(config.base, foldsCase), IdentityKey(database.base, foldsCase);
    BaseKeyOf(Target(which), config, database, foldsCase);
    BaseKeyOf(other, config, database, foldsCase);
    Ending(Target(which), c, d);
    Ending(other, c, d);
    if other.JournalFile? {
      assert which.Config? || |TargetKey(which, c, d)| < |d + JOURNAL_SUFFIX|;
    } else {
      MarkedNames(other, c, d);
    }
  }

  /** No two of the files of any set of restores over one accepted target pair are the same file. */
  lemma NamesAreDistinctFiles(a: Name, b: Name, config: Path, database: Path, foldsCase: bool)
    requires ValidTargetPair(config, database, foldsCase)
    requires Usable(a) && Usable(b) && a != b
    ensures !SamePath(PathOf(a, config, database), PathOf(b, config, database), foldsCase)
  {
    var c, d := IdentityKey(config.base, foldsCase), IdentityKey(database.base, foldsCase);
    if a.Target? && b.Target? {
      TargetsDiffer(a.which, b.which, config, database, foldsCase);
    } else if a.Target? {
      TargetIsNoWorkFile(a.which, b, config, database, foldsCase);
    } else if b.Target? {
      TargetIsNoWorkFile(b.which, a, config, database, foldsCase);
    } else if SamePath(PathOf(a, config, database), PathOf(b, config, database), foldsCase) {
      BaseKeyOf(a, config, database, foldsCase);
      BaseKeyOf(b, config, database, foldsCase);
      Ending(a, c, d);
      Ending(b, c, d);
      SameRole(a, b, c, d);
      TargetKeyOf(a.which, config, database, foldsCase);
      TargetKeyOf(b.which, config, database, foldsCase);
      TargetsDiffer(a.which, b.which, config, database, foldsCase);
    }
  }

  // ---------------------------------------------------------------- an accepted pair

  lemma TooShort(s: string, part: string, k: nat)
    requires part != [] && k + |part| > |s|
    requires forall i | 0 <= i < k && i < |s| :: s[i] != part[0]
    ensures !Contains(s, part)
  {
    forall i | 0 <= i <= |s|
      ensures !HasPrefix(s[i..], part)
    {
      if i < k && i < |s| {
        assert s[i..][0] == s[i];
        assert |part| <= |s[i..]| ==> s[i..][..|part|][0] == s[i];
      }
    }
  }

  /** The checks are not idle: a config and a database of the usual names are accepted, side by side and on
      either kind of file system. */
  lemma UsualPairIsAccepted(foldsCase: bool)
    ensures ValidTargetPair(Path("/srv", "config.toml"), Path("/srv", "depsilo.db"), foldsCase)
  {
    var c, d := "config.toml", "depsilo.db";
    KeyOfLower(c, foldsCase);
    KeyOfLower(d, foldsCase);
    KeyOfLower(d + "-wal", foldsCase);
    KeyOfLower(d + "-shm", foldsCase);
    KeyOfLower(d + ".depsilo.lock", foldsCase);
    KeyOfLower(d + JOURNAL_SUFFIX, foldsCase);
    KeyOfLower("." + d + ".restore-", foldsCase);
    KeyOfLower(d + ".pre-restore-", foldsCase);
    assert c[0] == 'c' && d[0] == 'd';
    assert (d + "-wal")[0] == (d + "-shm")[0] == (d + ".depsilo.lock")[0] == (d + JOURNAL_SUFFIX)[0] == 'd';
    NotReserved(c, foldsCase);
    NotReserved(d, foldsCase);
    assert !HasPrefix(c, "." + d + ".restore-") && !HasPrefix(c, d + ".pre-restore-");
    OutsideLocks(c, foldsCase);
    OutsideLocks(d, foldsCase);
  }

  lemma EndsElsewhere(s: string, suffix: string, k: nat)
    requires 0 < k <= |suffix| && k <= |s| && s[|s| - k] != suffix[|suffix| - k]
    ensures !HasSuffix(s, suffix)
  {
    assert |suffix| <= |s| ==> s[|s| - |suffix|..][|suffix| - k] == s[|s| - k];
  }

  lemma NotReserved(base: string, foldsCase: bool)
    requires base in {"config.toml", "depsilo.db"}
    ensures !ReservedBasename(base, foldsCase)
  {
    KeyOfLower(base, foldsCase);
    TooShort(base, ".restore-", 3);
    TooShort(base, ".pre-restore-", 0);
    EndsElsewhere(base, "-wal", 2);
    EndsElsewhere(base, "-shm", 2);
    EndsElsewhere(base, ".depsilo.lock", 1);
    EndsElsewhere(base, JOURNAL_SUFFIX, 1);
  }

  lemma OutsideLocks(base: string, foldsCase: bool)
    requires base in {"config.toml", "depsilo.db"}
    ensures !InsideDirectory(Path("/srv", base), Path("/srv", ".depsilo-locks"), foldsCase)
  {
    var path, locks := "/srv" + "/" + base, "/srv" + "/" + ".depsilo-locks";
    KeyOfLower(path, foldsCase);
    KeyOfLower(locks, foldsCase);
    assert path[5] == base[0] && locks[5] == '.';
  }
}
