/** Backups of one namespace, and their order by stop time.

    Sources: controllers/dataprotection/utils.go, pkg/dataprotection/utils/utils.go. */
module Backups {
  import opened Common

  datatype Phase = New | Running | Completed | Failed | Deleting

  datatype BackupType = Full | Incremental | Continuous | OtherType

  /** A backup: name; spec; labels; status; and whether it carries a deletion timestamp
      and the finalizer of the controller.
      An absent name or label is "", an absent end time or type label is None. */
  datatype Backup = Backup(
    name: string,
    policy: string, backupMethod: string, specParent: string,
    policyLabel: string, repoLabel: string, clusterLabel: string, scheduleLabel: string,
    typeLabel: Option<BackupType>,
    phase: Phase, repo: string, parent: string, base: string,
    end: Option<int>, expiration: Option<int>, encryption: string,
    marked: bool, finalizer: bool)

  /** The backups of a namespace, by name. */
  type Store = map<string, Backup>

  /** The seq lists exactly the stored backups. */
  ghost predicate Lists(all: seq<Backup>, store: Store) {
    forall b :: b in all <==> b.name in store && store[b.name] == b
  }

  /** Names are unique within a namespace. */
  ghost predicate DistinctNames(bs: seq<Backup>) {
    forall a, b :: a in bs && b in bs && a.name == b.name ==> a == b
  }

  predicate Refers(b: Backup, name: string) {
    b.parent == name || b.base == name
  }

  // ------------------------------------------------------------- stop times

  /** Lexicographic order of strings. */
  predicate Less(a: string, b: string) {
    b != "" && (a == "" || a[0] < b[0] || (a[0] == b[0] && Less(a[1..], b[1..])))
  }

  lemma {:induction false} LessIsTotal(a: string, b: string)
    ensures Less(a, b) || a == b || Less(b, a)
    ensures Less(a, b) ==> a != b && !Less(b, a)
  {
    if a != "" && b != "" && a[0] == b[0] {
      LessIsTotal(a[1..], b[1..]);
      assert a == [a[0]] + a[1..] && b == [b[0]] + b[1..];
    }
  }

  lemma {:induction false} LessIsTransitive(a: string, b: string, c: string)
    requires Less(a, b) && Less(b, c)
    ensures Less(a, c)
  {
    if a != "" && a[0] == b[0] && b[0] == c[0] {
      LessIsTransitive(a[1..], b[1..], c[1..]);
    }
  }

  /** a is a proper prefix of b, or has the smaller character where they first differ. */
  lemma {:induction false} LessIsLexicographic(a: string, b: string)
    ensures Less(a, b) <==>
            exists i :: 0 <= i <= |a| && i < |b| && a[..i] == b[..i] && (i == |a| || a[i] < b[i])
  {
    if a == "" || b == "" || a[0] != b[0] {
      if b != "" && (a == "" || a[0] < b[0]) {
        assert a[..0] == b[..0];
      }
      assert forall i :: 0 < i <= |a| && i < |b| ==> a[..i][0] == a[0] != b[0] == b[..i][0];
    } else {
      var c, d := a[1..], b[1..];
      LessIsLexicographic(c, d);
      if i :| 0 <= i <= |c| && i < |d| && c[..i] == d[..i] && (i == |c| || c[i] < d[i]) {
        assert a[..i + 1] == [a[0]] + c[..i] && b[..i + 1] == [b[0]] + d[..i];
      }
      if i :| 0 <= i <= |a| && i < |b| && a[..i] == b[..i] && (i == |a| || a[i] < b[i]) {
        assert i > 0 && c[..i - 1] == a[..i][1..] && d[..i - 1] == b[..i][1..];
      }
    }
  }

  /** CompareWithBackupStopTime: a stopped before b; a backup without stop time comes last. */
  predicate Before(a: Backup, b: Backup) {
    a.end.Some? &&
    (b.end.None? || a.end.value < b.end.value || (a.end.value == b.end.value && Less(a.name, b.name)))
  }

  /** Not stopping before is transitive, so sorting by stop time is well defined. */
  lemma NotBeforeTransitive(a: Backup, b: Backup, c: Backup)
    requires !Before(a, b) && !Before(b, c)
    ensures !Before(a, c)
  {
    if a.end.Some? && b.end.Some? && c.end.Some? {
      LessIsTotal(a.name, b.name);
      LessIsTotal(b.name, c.name);
      LessIsTotal(a.name, c.name);
      if Less(c.name, b.name) && Less(b.name, a.name) {
        LessIsTransitive(c.name, b.name, a.name);
      }
    }
  }

  /** Among backups with stop times and distinct names the order is strict and total. */
  lemma BeforeIsTotal(a: Backup, b: Backup)
    ensures !Before(a, a)
    ensures Before(a, b) ==> !Before(b, a)
    ensures a.end.Some? && b.end.Some? && a.name != b.name ==> Before(a, b) || Before(b, a)
    ensures a.end.Some? && b.end.Some? && a.end.value < b.end.value ==> Before(a, b)
  {
    LessIsTotal(a.name, a.name);
    LessIsTotal(a.name, b.name);
  }

  /** In terms of time: of two backups with stop times, the one that does not come before the
      other stopped later, or at the same time with the greater name. */
  lemma NotBeforeByTime(m: Backup, x: Backup)
    requires m.end.Some? && !Before(m, x)
    ensures x.end.Some? && x.end.value <= m.end.value
    ensures x.end.value == m.end.value && x.name != m.name ==> Less(x.name, m.name)
  {
    LessIsTotal(m.name, x.name);
  }

  // ---------------------------------------------------------------- sorting

  ghost predicate Descending(bs: seq<Backup>) {
    forall i, j :: 0 <= i < j < |bs| ==> !Before(bs[i], bs[j])
  }

  function Insert(b: Backup, bs: seq<Backup>): (r: seq<Backup>)
    ensures forall x :: x in r <==> x == b || x in bs
  {
    if bs == [] || Before(bs[0], b) then [b] + bs
    else
      assert bs == [bs[0]] + bs[1..];
      [bs[0]] + Insert(b, bs[1..])
  }

  lemma {:induction false} InsertKeepsDescending(b: Backup, bs: seq<Backup>)
    requires Descending(bs)
    ensures Descending(Insert(b, bs))
  {
    if bs != [] {
      BeforeIsTotal(bs[0], b);
      if Before(bs[0], b) {
        forall i | 0 <= i < |bs|
          ensures !Before(b, bs[i])
        {
          if i > 0 {
            NotBeforeTransitive(b, bs[0], bs[i]);
          }
        }
      } else {
        var rest := Insert(b, bs[1..]);
        InsertKeepsDescending(b, bs[1..]);
        forall i | 0 <= i < |rest|
          ensures !Before(bs[0], rest[i])
        {
          assert rest[i] in rest;
        }
      }
    }
  }

  /** sort.Slice with the arguments of CompareWithBackupStopTime swapped. */
  function SortDescending(bs: seq<Backup>): (r: seq<Backup>)
    ensures forall x :: x in r <==> x in bs
    ensures Descending(r)
  {
    if bs == [] then []
    else
      InsertKeepsDescending(bs[0], SortDescending(bs[1..]));
      assert bs == [bs[0]] + bs[1..];
      Insert(bs[0], SortDescending(bs[1..]))
  }

  /** m is in bs and nothing in bs stopped later. */
  ghost predicate IsLatest(m: Backup, bs: seq<Backup>) {
    m in bs && forall x :: x in bs ==> !Before(m, x)
  }

  lemma HeadIsLatest(bs: seq<Backup>)
    requires bs != []
    ensures SortDescending(bs) != [] && IsLatest(SortDescending(bs)[0], bs)
    ensures var m := SortDescending(bs)[0];
      m.end.Some? ==> forall x :: x in bs ==> x.end.Some? && x.end.value <= m.end.value
  {
    var r := SortDescending(bs);
    assert bs[0] in r;
    forall x | x in bs
      ensures !Before(r[0], x)
      ensures r[0].end.Some? ==> x.end.Some? && x.end.value <= r[0].end.value
    {
      var i :| 0 <= i < |r| && r[i] == x;
      BeforeIsTotal(r[0], r[0]);
      if r[0].end.Some? {
        NotBeforeByTime(r[0], x);
      }
    }
  }

  /** With stop times and distinct names there is only one latest backup. */
  lemma LatestIsUnique(a: Backup, b: Backup, bs: seq<Backup>)
    requires IsLatest(a, bs) && IsLatest(b, bs)
    requires a.end.Some? && b.end.Some? && (a.name == b.name ==> a == b)
    ensures a == b
  {
    BeforeIsTotal(a, b);
  }
}
