/**
 Moving a server to another node: the parts the source sends (source.go, archive.go) and the loop that
 receives and verifies them (router_transfer.go).

 Contents are strings; `hash` stands for the hexadecimal SHA-256 sum.
 */
module Transfer {
  import opened Prelude

  datatype Part = Part(name: string, content: string)

  // ---- Part names ----

  const ARCHIVE := "archive"
  const ARCHIVE_SUM := "checksum_archive"
  const LOGS := "install_logs"
  const BACKUP := "backup_"
  const BACKUP_SUM := "checksum_backup_"

  datatype Kind = Archive | ArchiveSum | Logs | Backup(file: string) | BackupSum(file: string) | Other

  /** The names the source gives its parts. */
  function NameOf(k: Kind): string
    requires !k.Other?
  {
    match k
    case Archive => ARCHIVE
    case ArchiveSum => ARCHIVE_SUM
    case Logs => LOGS
    case Backup(f) => BACKUP + f
    case BackupSum(f) => BACKUP_SUM + f
  }

  /** The switch of the receiver. */
  function Classify(name: string): Kind {
    if name == ARCHIVE then Archive
    else if ARCHIVE_SUM <= name then ArchiveSum
    else if name == LOGS then Logs
    else if BACKUP <= name then Backup(name[|BACKUP|..])
    else if BACKUP_SUM <= name then BackupSum(name[|BACKUP_SUM|..])
    else Other
  }

  /** No name the source uses is taken for another one, whatever the backup files are called. */
  lemma NamesAreUnambiguous(k: Kind)
    requires !k.Other?
    ensures Classify(NameOf(k)) == k
  {
    var name := NameOf(k);
    match k {
      case Backup(f) =>
        assert name[0] == 'b' && BACKUP <= name;
        assert name[|BACKUP|..] == f;
      case BackupSum(f) =>
        assert name[0] == 'c' && name[9] == 'b' && BACKUP_SUM <= name;
        assert ARCHIVE_SUM[9] == 'a';
        assert BACKUP[0] == 'b' && LOGS[0] == 'i';
        assert name[|BACKUP_SUM|..] == f;
      case _ =>
    }
  }

  // ---- The source ----

  /** An entry of the backup directory. */
  datatype Entry = Entry(name: string, isDir: bool, content: string)

  type Hash = string -> string

  predicate Wanted(e: Entry, uuids: seq<string>) {
    !e.isDir && exists u :: u in uuids && e.name == u + ".tar.gz"
  }

  function Asked(uuids: seq<string>): Entry -> bool { (e: Entry) => Wanted(e, uuids) }

  function Selected(entries: seq<Entry>, uuids: seq<string>): seq<Entry> {
    Filter(entries, Asked(uuids))
  }

  function BackupParts(backups: seq<Entry>, hash: Hash): seq<Part> {
    if backups == [] then []
    else
      var e := backups[|backups| - 1];
      BackupParts(backups[..|backups| - 1], hash)
      + [Part(BACKUP + e.name, e.content), Part(BACKUP_SUM + e.name, hash(e.content))]
  }

  /** Everything the source sends, in order. */
  function AllParts(archive: string, backups: seq<Entry>, logs: Option<string>, hash: Hash): seq<Part> {
    PartsWith(archive, hash(archive), backups, logs, hash)
  }

  function PartsWith(archive: string, sum: string, backups: seq<Entry>, logs: Option<string>, hash: Hash): seq<Part> {
    [Part(ARCHIVE, archive), Part(ARCHIVE_SUM, sum)] + BackupParts(backups, hash)
    + (if logs.Some? then [Part(LOGS, logs.value)] else [])
  }

  /** `PushArchiveToTarget` and `StreamBackups`, when no local step fails. */
  method Send(archive: string, entries: seq<Entry>, uuids: seq<string>, logs: Option<string>, hash: Hash)
    returns (parts: seq<Part>)
    ensures parts == AllParts(archive, Selected(entries, uuids), logs, hash)
  {
    parts := [Part(ARCHIVE, archive), Part(ARCHIVE_SUM, hash(archive))];
    if |uuids| > 0 {
      var backups := SelectBackups(entries, uuids);
      var streamed := StreamBackups(backups, hash);
      parts := parts + streamed;
    } else {
      NoneSelected(entries);
    }
    if logs.Some? {
      parts := parts + [Part(LOGS, logs.value)];
    }
  }

  method SelectBackups(entries: seq<Entry>, uuids: seq<string>) returns (backups: seq<Entry>)
    ensures backups == Selected(entries, uuids)
  {
    var backupSet := set u | u in uuids :: u + ".tar.gz";
    backups := [];
    for i := 0 to |entries|
      invariant backups == Selected(entries[..i], uuids)
    {
      assert entries[..i + 1][..i] == entries[..i];
      if !entries[i].isDir && entries[i].name in backupSet {
        backups := backups + [entries[i]];
      }
    }
    assert entries[..|entries|] == entries;
  }

  method StreamBackups(backups: seq<Entry>, hash: Hash) returns (parts: seq<Part>)
    ensures parts == BackupParts(backups, hash)
  {
    parts := [];
    for i := 0 to |backups|
      invariant parts == BackupParts(backups[..i], hash)
    {
      assert backups[..i + 1][..i] == backups[..i];
      parts := parts + [Part(BACKUP + backups[i].name, backups[i].content),
                        Part(BACKUP_SUM + backups[i].name, hash(backups[i].content))];
    }
    assert backups[..|backups|] == backups;
  }

  /** What is sent, part by part: the archive, the backups, the install logs, each file before its checksum. */
  lemma PartsMeaning(archive: string, backups: seq<Entry>, logs: Option<string>, hash: Hash, i: nat)
    ensures var parts := AllParts(archive, backups, logs, hash);
            && |parts| == 2 + 2 * |backups| + (if logs.Some? then 1 else 0)
            && parts[0] == Part("archive", archive) && parts[1] == Part("checksum_archive", hash(archive))
            && (i < |backups| ==>
                  && parts[2 + 2 * i] == Part("backup_" + backups[i].name, backups[i].content)
                  && parts[3 + 2 * i] == Part("checksum_backup_" + backups[i].name, hash(backups[i].content)))
            && (logs.Some? ==> parts[|parts| - 1] == Part("install_logs", logs.value))
  {
    BackupPartsMeaning(backups, hash, i);
  }

  lemma {:induction false} BackupPartsMeaning(backups: seq<Entry>, hash: Hash, i: nat)
    ensures |BackupParts(backups, hash)| == 2 * |backups|
    ensures i < |backups| ==>
              && BackupParts(backups, hash)[2 * i] == Part("backup_" + backups[i].name, backups[i].content)
              && BackupParts(backups, hash)[2 * i + 1] == Part("checksum_backup_" + backups[i].name, hash(backups[i].content))
    decreases |backups|
  {
    if backups != [] {
      BackupPartsMeaning(backups[..|backups| - 1], hash, i);
    }
  }

  lemma {:induction false} NoneSelected(entries: seq<Entry>)
    ensures Selected(entries, []) == []
    decreases |entries|
  {
    if entries != [] {
      NoneSelected(entries[..|entries| - 1]);
    }
  }

  // ---- The target ----

  /** What has arrived: the archives extracted one over the other, and the last value of everything else. */
  datatype Inbox = Inbox(extracted: seq<string>, sum: string, files: map<string, string>, sums: map<string, string>)

  const EMPTY: Inbox := Inbox([], "", map[], map[])

  function Store(b: Inbox, p: Part): Inbox {
    match Classify(p.name)
    case Archive => b.(extracted := b.extracted + [p.content])
    case ArchiveSum => b.(sum := p.content)
    case Backup(f) => b.(files := b.files[f := p.content])
    case BackupSum(f) => b.(sums := b.sums[f := p.content])
    case _ => b
  }

  function Arrived(parts: seq<Part>): Inbox {
    if parts == [] then EMPTY else Store(Arrived(parts[..|parts| - 1]), parts[|parts| - 1])
  }

  /** What the receiver gets to see of a part: of an archive only the first `n` bytes, which the extractor reads. */
  function Seen(p: Part, n: nat): Part {
    if Classify(p.name).Archive? && n < |p.content| then Part(p.name, p.content[..n]) else p
  }

  function AsRead(parts: seq<Part>, taken: nat -> nat): seq<Part> {
    seq(|parts|, i requires 0 <= i < |parts| => Seen(parts[i], taken(i)))
  }

  /** There is an archive, and every checksum there should be is there and right. */
  ghost predicate Verified(b: Inbox, hash: Hash) {
    && b.extracted != [] && b.sum != "" && hash(b.extracted[|b.extracted| - 1]) == b.sum
    && (forall f :: f in b.files ==> f in b.sums && hash(b.files[f]) == b.sums[f])
  }

  /**
   The receiver.  `stop` is the number of parts after which the transfer is cancelled or the stream ends,
   `taken` how many bytes the extractor reads of an archive, `fails` tells where a local step or the stream
   fails, `configured` whether the environment can be set up.
   */
  method Receive(parts: seq<Part>, stop: nat, taken: nat -> nat, fails: nat -> bool, configured: bool, hash: Hash)
    returns (successful: bool, ghost inbox: Inbox)
    requires stop <= |parts|
    ensures successful ==> inbox == Arrived(AsRead(parts, taken)[..stop])
    ensures successful <==>
              configured && Verified(Arrived(AsRead(parts, taken)[..stop]), hash) && forall i :: 0 <= i < stop ==> !fails(i)
  {
    var read, hasArchive, archiveChecksum, archiveChecksumReceived, calculated, received;
    read, hasArchive, archiveChecksum, archiveChecksumReceived, calculated, received, inbox :=
      ReceiveParts(parts, stop, taken, fails, hash, AsRead(parts, taken));
    if !read {
      return false, inbox;
    }
    var matching := VerifyAll(hasArchive, archiveChecksum, archiveChecksumReceived, calculated, received);
    SumsMatch(inbox, hasArchive, archiveChecksum, archiveChecksumReceived, calculated, received, hash);
    successful := matching && configured;
  }

  /** The loop over the parts, up to the first step that fails. */
  method ReceiveParts(parts: seq<Part>, stop: nat, taken: nat -> nat, fails: nat -> bool, hash: Hash, ghost seen: seq<Part>)
    returns (read: bool, hasArchive: bool, archiveChecksum: string, archiveChecksumReceived: string,
             calculated: map<string, string>, received: map<string, string>, ghost inbox: Inbox)
    requires stop <= |parts| == |seen| && forall i :: 0 <= i < |seen| ==> seen[i] == Seen(parts[i], taken(i))
    ensures read <==> forall i :: 0 <= i < stop ==> !fails(i)
    ensures read ==> inbox == Arrived(seen[..stop])
    ensures Sums(inbox, hasArchive, archiveChecksum, archiveChecksumReceived, calculated, received, hash)
  {
    read, hasArchive, archiveChecksum, archiveChecksumReceived := true, false, "", "";
    calculated, received, inbox := map[], map[], EMPTY;
    for i := 0 to stop
      invariant read && inbox == Arrived(seen[..i]) && forall j :: 0 <= j < i ==> !fails(j)
      invariant Sums(inbox, hasArchive, archiveChecksum, archiveChecksumReceived, calculated, received, hash)
    {
      ArrivedNext(seen, i);
      if fails(i) {
        read := false;
        return;
      }
      var p := Seen(parts[i], taken(i));
      SumsGrow(inbox, p, hasArchive, archiveChecksum, archiveChecksumReceived, calculated, received, hash);
      inbox := Store(inbox, p);
      match Classify(p.name) {
        case Archive => hasArchive, archiveChecksum := true, hash(p.content);
        case ArchiveSum => archiveChecksumReceived := p.content;
        case Backup(f) => calculated := calculated[f := hash(p.content)];
        case BackupSum(f) => received := received[f := p.content];
        case _ =>
      }
    }
  }

  lemma ArrivedNext(parts: seq<Part>, i: nat)
    requires i < |parts|
    ensures Arrived(parts[..i + 1]) == Store(Arrived(parts[..i]), parts[i])
  {
    assert parts[..i + 1][..i] == parts[..i];
  }

  lemma SumsGrow(b: Inbox, p: Part, hasArchive: bool, archiveChecksum: string, archiveChecksumReceived: string,
                 calculated: map<string, string>, received: map<string, string>, hash: Hash)
    requires Sums(b, hasArchive, archiveChecksum, archiveChecksumReceived, calculated, received, hash)
    ensures match Classify(p.name)
            case Archive => Sums(Store(b, p), true, hash(p.content), archiveChecksumReceived, calculated, received, hash)
            case ArchiveSum => Sums(Store(b, p), hasArchive, archiveChecksum, p.content, calculated, received, hash)
            case Backup(f) =>
              Sums(Store(b, p), hasArchive, archiveChecksum, archiveChecksumReceived, calculated[f := hash(p.content)], received, hash)
            case BackupSum(f) =>
              Sums(Store(b, p), hasArchive, archiveChecksum, archiveChecksumReceived, calculated, received[f := p.content], hash)
            case _ => Sums(Store(b, p), hasArchive, archiveChecksum, archiveChecksumReceived, calculated, received, hash)
  {
  }

  lemma SumsMatch(b: Inbox, hasArchive: bool, archiveChecksum: string, archiveChecksumReceived: string,
                  calculated: map<string, string>, received: map<string, string>, hash: Hash)
    requires Sums(b, hasArchive, archiveChecksum, archiveChecksumReceived, calculated, received, hash)
    ensures Verified(b, hash) <==>
              && hasArchive && archiveChecksumReceived != "" && archiveChecksum == archiveChecksumReceived
              && forall f :: f in calculated ==> f in received && calculated[f] == received[f]
  {
    assert forall f :: f in b.files <==> f in calculated;
  }

  /** The receiver's variables hold the checksums of what has arrived. */
  ghost predicate Sums(b: Inbox, hasArchive: bool, archiveChecksum: string, archiveChecksumReceived: string,
                       calculated: map<string, string>, received: map<string, string>, hash: Hash) {
    && (hasArchive <==> b.extracted != [])
    && (hasArchive ==> archiveChecksum == hash(b.extracted[|b.extracted| - 1]))
    && archiveChecksumReceived == b.sum && received == b.sums
    && calculated.Keys == b.files.Keys && forall f :: f in b.files ==> calculated[f] == hash(b.files[f])
  }

  method VerifyAll(hasArchive: bool, archiveChecksum: string, archiveChecksumReceived: string,
                   calculated: map<string, string>, received: map<string, string>) returns (ok: bool)
    ensures ok <==>
              && hasArchive && archiveChecksumReceived != "" && archiveChecksum == archiveChecksumReceived
              && forall f :: f in calculated ==> f in received && calculated[f] == received[f]
  {
    if hasArchive {
      if archiveChecksumReceived == "" {
        return false;
      }
      if archiveChecksum != archiveChecksumReceived {
        return false;
      }
    }
    var todo := calculated.Keys;
    while todo != {}
      invariant todo <= calculated.Keys
      invariant forall f :: f in calculated && f !in todo ==> f in received && calculated[f] == received[f]
      decreases todo
    {
      var f :| f in todo;
      if f !in received || calculated[f] != received[f] {
        return false;
      }
      todo := todo - {f};
    }
    ok := hasArchive;
  }

  // ---- From one end to the other ----

  lemma SelectedMeaning(entries: seq<Entry>, uuids: seq<string>)
    ensures forall e :: e in Selected(entries, uuids) <==>
              e in entries && !e.isDir && exists u :: u in uuids && e.name == u + ".tar.gz"
  {
    FilterMeaning(entries, Asked(uuids));
  }

  /** No two of the files have the same name, as in a directory. */
  ghost predicate DistinctNames(es: seq<Entry>) {
    forall i, j :: 0 <= i < j < |es| ==> es[i].name != es[j].name
  }

  lemma ArrivedOne(parts: seq<Part>, p: Part)
    ensures Arrived(parts + [p]) == Store(Arrived(parts), p)
  {
    assert (parts + [p])[..|parts|] == parts;
  }

  lemma ArrivedBackup(parts: seq<Part>, e: Entry, hash: Hash)
    ensures var b := Arrived(parts);
            Arrived(parts + [Part(BACKUP + e.name, e.content), Part(BACKUP_SUM + e.name, hash(e.content))]) ==
              b.(files := b.files[e.name := e.content], sums := b.sums[e.name := hash(e.content)])
  {
    var p, q := Part(BACKUP + e.name, e.content), Part(BACKUP_SUM + e.name, hash(e.content));
    ArrivedOne(parts, p);
    ArrivedOne(parts + [p], q);
    assert parts + [p, q] == (parts + [p]) + [q];
    NamesAreUnambiguous(Backup(e.name));
    NamesAreUnambiguous(BackupSum(e.name));
  }

  /** One archive was extracted, and the files are those of `backups`, each with its checksum. */
  ghost predicate Holds(b: Inbox, archive: string, sum: string, backups: seq<Entry>, hash: Hash) {
    && b.extracted == [archive] && b.sum == sum && b.sums.Keys == b.files.Keys
    && (forall f :: f in b.files <==> exists e :: e in backups && e.name == f)
    && (forall f :: f in b.files ==> b.sums[f] == hash(b.files[f]))
    && (forall e :: e in backups ==> b.files[e.name] == e.content)
  }

  lemma {:induction false} BackupsArrive(archive: string, sum: string, backups: seq<Entry>, hash: Hash)
    requires DistinctNames(backups)
    ensures Holds(Arrived([Part(ARCHIVE, archive), Part(ARCHIVE_SUM, sum)] + BackupParts(backups, hash)), archive, sum, backups, hash)
    decreases |backups|
  {
    if backups == [] {
      HeadArrives(archive, sum, hash);
    } else {
      var before, e := backups[..|backups| - 1], backups[|backups| - 1];
      assert backups == before + [e];
      BackupsArrive(archive, sum, before, hash);
      BackupArrives([Part(ARCHIVE, archive), Part(ARCHIVE_SUM, sum)], archive, sum, before, e, hash);
    }
  }

  lemma HeadArrives(archive: string, sum: string, hash: Hash)
    ensures Holds(Arrived([Part(ARCHIVE, archive), Part(ARCHIVE_SUM, sum)] + BackupParts([], hash)), archive, sum, [], hash)
  {
    var p, q := Part(ARCHIVE, archive), Part(ARCHIVE_SUM, sum);
    ArrivedOne([], p);
    ArrivedOne([p], q);
    assert [] + [p] == [p] && [p] + [q] == [p, q] && [p, q] + BackupParts([], hash) == [p, q];
    NamesAreUnambiguous(Archive);
    NamesAreUnambiguous(ArchiveSum);
    assert Arrived([p, q]) == Inbox([archive], sum, map[], map[]);
  }

  lemma BackupArrives(head: seq<Part>, archive: string, sum: string, before: seq<Entry>, e: Entry, hash: Hash)
    requires Holds(Arrived(head + BackupParts(before, hash)), archive, sum, before, hash)
    requires forall x :: x in before ==> x.name != e.name
    ensures Holds(Arrived(head + BackupParts(before + [e], hash)), archive, sum, before + [e], hash)
  {
    var parts, more := head + BackupParts(before, hash), [Part(BACKUP + e.name, e.content), Part(BACKUP_SUM + e.name, hash(e.content))];
    assert head + BackupParts(before + [e], hash) == parts + more by {
      assert (before + [e])[..|before|] == before;
      assert head + (BackupParts(before, hash) + more) == parts + more;
    }
    ArrivedBackup(parts, e, hash);
    HoldsMore(Arrived(parts), archive, sum, before, e, hash);
  }

  lemma HoldsMore(b: Inbox, archive: string, sum: string, before: seq<Entry>, e: Entry, hash: Hash)
    requires Holds(b, archive, sum, before, hash) && forall x :: x in before ==> x.name != e.name
    ensures Holds(b.(files := b.files[e.name := e.content], sums := b.sums[e.name := hash(e.content)]),
                  archive, sum, before + [e], hash)
  {
    var b' := b.(files := b.files[e.name := e.content], sums := b.sums[e.name := hash(e.content)]);
    assert e in before + [e];
    forall f ensures f in b'.files <==> exists x :: x in before + [e] && x.name == f {
      if f in b.files {
        var x :| x in before && x.name == f;
        assert x in before + [e];
      }
    }
  }

  lemma AllArrive(archive: string, sum: string, backups: seq<Entry>, logs: Option<string>, hash: Hash)
    requires DistinctNames(backups)
    ensures Holds(Arrived(PartsWith(archive, sum, backups, logs, hash)), archive, sum, backups, hash)
  {
    var parts := [Part(ARCHIVE, archive), Part(ARCHIVE_SUM, sum)] + BackupParts(backups, hash);
    BackupsArrive(archive, sum, backups, hash);
    if logs.Some? {
      ArrivedOne(parts, Part(LOGS, logs.value));
      NamesAreUnambiguous(Logs);
    } else {
      assert parts + [] == parts;
    }
  }

  lemma SentArchive(archive: string, sum: string, backups: seq<Entry>, logs: Option<string>, hash: Hash, i: nat)
    requires i < |PartsWith(archive, sum, backups, logs, hash)|
    ensures Classify(PartsWith(archive, sum, backups, logs, hash)[i].name).Archive? <==> i == 0
  {
    var p := PartsWith(archive, sum, backups, logs, hash)[i];
    NamesAreUnambiguous(Archive);
    NamesAreUnambiguous(ArchiveSum);
    NamesAreUnambiguous(Logs);
    if 2 <= i < 2 + |BackupParts(backups, hash)| {
      assert p == BackupParts(backups, hash)[i - 2];
      var e := SentBackupPart(backups, hash, p);
    }
  }

  /** Of what the source sends only the archive itself can be cut short. */
  lemma SentAsRead(archive: string, backups: seq<Entry>, logs: Option<string>, hash: Hash, taken: nat -> nat)
    ensures AsRead(AllParts(archive, backups, logs, hash), taken) ==
              PartsWith(archive[..Min(taken(0), |archive|)], hash(archive), backups, logs, hash)
  {
    var parts := AllParts(archive, backups, logs, hash);
    var seen := PartsWith(archive[..Min(taken(0), |archive|)], hash(archive), backups, logs, hash);
    assert archive[..|archive|] == archive;
    assert parts[1..] == seen[1..];
    forall i | 0 <= i < |parts| ensures Seen(parts[i], taken(i)) == seen[i] {
      SentArchive(archive, hash(archive), backups, logs, hash, i);
      assert i > 0 ==> parts[i] == parts[1..][i - 1] && seen[i] == seen[1..][i - 1];
    }
  }

  /**
   Whatever the source sends is accepted when it arrives whole exactly if the extractor reads the archive to
   its end, or the hash does not tell the difference; every backup then is as it was.
   */
  lemma DeliveredIsVerified(archive: string, backups: seq<Entry>, logs: Option<string>, hash: Hash, taken: nat -> nat)
    requires DistinctNames(backups) && hash(archive) != ""
    ensures var read := archive[..Min(taken(0), |archive|)];
            var b := Arrived(AsRead(AllParts(archive, backups, logs, hash), taken));
            && Holds(b, read, hash(archive), backups, hash)
            && (Verified(b, hash) <==> hash(read) == hash(archive))
            && (Injective(hash) ==> (Verified(b, hash) <==> taken(0) >= |archive|))
  {
    var read := archive[..Min(taken(0), |archive|)];
    SentAsRead(archive, backups, logs, hash, taken);
    AllArrive(read, hash(archive), backups, logs, hash);
    assert read == archive <==> taken(0) >= |archive|;
  }

  // ---- Integrity ----

  ghost predicate Injective(hash: Hash) {
    forall x, y :: hash(x) == hash(y) ==> x == y
  }

  ghost predicate IsSum(p: Part) {
    Classify(p.name).ArchiveSum? || Classify(p.name).BackupSum?
  }

  lemma {:induction false} SumCameFrom(parts: seq<Part>) returns (p: Part)
    requires Arrived(parts).sum != ""
    ensures p in parts && Classify(p.name).ArchiveSum? && p.content == Arrived(parts).sum
    decreases |parts|
  {
    p := parts[|parts| - 1];
    if !Classify(p.name).ArchiveSum? {
      p := SumCameFrom(parts[..|parts| - 1]);
    }
  }

  lemma {:induction false} BackupSumCameFrom(parts: seq<Part>, f: string) returns (p: Part)
    requires f in Arrived(parts).sums
    ensures p in parts && Classify(p.name) == BackupSum(f) && p.content == Arrived(parts).sums[f]
    decreases |parts|
  {
    p := parts[|parts| - 1];
    if Classify(p.name) != BackupSum(f) {
      p := BackupSumCameFrom(parts[..|parts| - 1], f);
    }
  }

  lemma {:induction false} SentBackupPart(backups: seq<Entry>, hash: Hash, p: Part) returns (e: Entry)
    requires p in BackupParts(backups, hash)
    ensures e in backups
    ensures (p == Part(BACKUP + e.name, e.content) && Classify(p.name) == Backup(e.name))
         || (p == Part(BACKUP_SUM + e.name, hash(e.content)) && Classify(p.name) == BackupSum(e.name))
    decreases |backups|
  {
    e := backups[|backups| - 1];
    NamesAreUnambiguous(Backup(e.name));
    NamesAreUnambiguous(BackupSum(e.name));
    if p != Part(BACKUP + e.name, e.content) && p != Part(BACKUP_SUM + e.name, hash(e.content)) {
      e := SentBackupPart(backups[..|backups| - 1], hash, p);
    }
  }

  lemma SentSum(archive: string, backups: seq<Entry>, logs: Option<string>, hash: Hash, p: Part)
    requires p in AllParts(archive, backups, logs, hash) && IsSum(p)
    ensures Classify(p.name).ArchiveSum? ==> p.content == hash(archive)
    ensures Classify(p.name).BackupSum? ==>
              exists e :: e in backups && e.name == Classify(p.name).file && p.content == hash(e.content)
  {
    NamesAreUnambiguous(Archive);
    NamesAreUnambiguous(ArchiveSum);
    NamesAreUnambiguous(Logs);
    if p in BackupParts(backups, hash) {
      var e := SentBackupPart(backups, hash, p);
    }
  }

  /**
   However parts are dropped, repeated, reordered or corrupted on the way: as long as the checksum fields
   that arrive are ones that were sent, an accepted transfer leaves the archive that was sent on top, and
   every backup file that arrived as it was.  Nothing else was extracted exactly when one archive arrived.
   Archives count with what the extractor read of them.
   */
  lemma AcceptedIsGenuine(archive: string, backups: seq<Entry>, logs: Option<string>, hash: Hash, parts: seq<Part>)
    requires Injective(hash) && Verified(Arrived(parts), hash)
    requires forall p :: p in parts && IsSum(p) ==> p in AllParts(archive, backups, logs, hash)
    ensures var b := Arrived(parts);
            b.extracted[|b.extracted| - 1] == archive && (b.extracted == [archive] <==> Archives(parts) == 1)
    ensures forall f :: f in Arrived(parts).files ==> Arrived(parts).files[f] in Contents(backups, f)
  {
    var b := Arrived(parts);
    var p := SumCameFrom(parts);
    ExtractedOnce(parts);
    SentSum(archive, backups, logs, hash, p);
    forall f | f in b.files ensures b.files[f] in Contents(backups, f) {
      var q := BackupSumCameFrom(parts, f);
      SentSum(archive, backups, logs, hash, q);
      var e :| e in backups && e.name == f && q.content == hash(e.content);
    }
  }

  /** How many of the parts are archives. */
  function Archives(parts: seq<Part>): nat {
    if parts == [] then 0
    else Archives(parts[..|parts| - 1]) + if Classify(parts[|parts| - 1].name).Archive? then 1 else 0
  }

  lemma {:induction false} ExtractedOnce(parts: seq<Part>)
    ensures |Arrived(parts).extracted| == Archives(parts)
    decreases |parts|
  {
    if parts != [] {
      ExtractedOnce(parts[..|parts| - 1]);
    }
  }

  /** The contents under which a file called `f` was sent. */
  function Contents(backups: seq<Entry>, f: string): set<string> {
    set e | e in backups && e.name == f :: e.content
  }

  /** Only the archive extracted last is checked: what was extracted before it stays, whatever it was. */
  lemma EarlierArchivesAreUnchecked(parts: seq<Part>, archive: string, hash: Hash)
    requires Arrived(parts).files == map[] && hash(archive) != ""
    ensures var b := Arrived(parts + [Part(ARCHIVE, archive)] + [Part(ARCHIVE_SUM, hash(archive))]);
            Verified(b, hash) && b.extracted == Arrived(parts).extracted + [archive]
  {
    NamesAreUnambiguous(Archive);
    NamesAreUnambiguous(ArchiveSum);
    ArrivedOne(parts, Part(ARCHIVE, archive));
    ArrivedOne(parts + [Part(ARCHIVE, archive)], Part(ARCHIVE_SUM, hash(archive)));
  }
}
