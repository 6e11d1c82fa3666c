/** The bounded history of configuration revisions kept in the annotations of a configmap.

    Sources: controllers/parameters/revision.go, controllers/parameters/config_annotation.go,
    controllers/parameters/reconcile_task.go. */
module RevisionHistory {
  import opened Common

  /** Annotation keys. PhaseOf(r) is the key that GenerateRevisionPhaseKey makes for revision r,
      the fixed prefix followed by r; no other key has that prefix. */
  datatype Key = PhaseOf(revision: string) | Current | Disable | LastApplied | Policy | OtherKey(name: string)

  type Annotations = map<Key, string>

  const HISTORY_LIMIT: nat := 10

  // --------------------------------------------------------------- numerals

  predicate IsDigit(c: char) {
    '0' <= c <= '9'
  }

  /** The value of a text of decimal digits; None for any other text. */
  function Digits(s: string): Option<nat> {
    if s == "" then Some(0)
    else
      var front, c := Digits(s[..|s| - 1]), s[|s| - 1];
      if front.None? || !IsDigit(c) then None else Some(10 * front.value + (c as int - '0' as int))
  }

  const MAX_INT64 := 0x7fff_ffff_ffff_ffff

  /** strconv.ParseInt(s, 10, 64): an optional sign and at least one digit, within range. */
  function ParseInt64(s: string): Option<int> {
    if s == "" then None
    else if s[0] == '-' || s[0] == '+' then
      if s[1..] == "" || Digits(s[1..]).None? then None
      else if s[0] == '-' then InRange(0 - Digits(s[1..]).value)
      else InRange(Digits(s[1..]).value)
    else if Digits(s).None? then None
    else InRange(Digits(s).value)
  }

  function InRange(v: int): Option<int> {
    if -MAX_INT64 - 1 <= v <= MAX_INT64 then Some(v) else None
  }

  function FormatNat(n: nat): (s: string)
    ensures s != "" && IsDigit(s[0]) && Digits(s) == Some(n)
  {
    var last := [('0' as int + n % 10) as char];
    if n < 10 then last
    else
      var front := FormatNat(n / 10);
      assert (front + last)[..|front|] == front;
      front + last
  }

  lemma {:induction false} DigitsIff(s: string)
    ensures Digits(s).Some? <==> forall i :: 0 <= i < |s| ==> IsDigit(s[i])
  {
    if s != "" {
      DigitsIff(s[..|s| - 1]);
    }
  }

  /** A plus sign changes nothing, a minus sign negates; the least value has no positive form. */
  lemma SignedParse(s: string, n: nat)
    requires s != "" && Digits(s) == Some(n)
    ensures ParseInt64(s) == ParseInt64("+" + s) == if n <= MAX_INT64 then Some(n) else None
    ensures ParseInt64("-" + s) == if n <= MAX_INT64 + 1 then Some(0 - n as int) else None
  {
    assert ("+" + s)[1..] == s && ("-" + s)[1..] == s;
    DigitsIff(s);
    assert IsDigit(s[0]);
  }

  /** strconv.FormatInt(v, 10). */
  function FormatInt(v: int): (s: string)
    ensures -MAX_INT64 - 1 <= v <= MAX_INT64 ==> ParseInt64(s) == Some(v)
  {
    if v < 0 then
      var digits := FormatNat(-v);
      assert ("-" + digits)[1..] == digits;
      "-" + digits
    else FormatNat(v)
  }

  // ------------------------------------------------------------- retrieval

  /** A record: the revision as number and as text, and its annotation value. */
  datatype Revision = Revision(number: int, text: string, value: string)

  /** The numeric revisions that have a record. */
  function Recorded(annotations: Annotations): set<string> {
    set k | k in annotations && k.PhaseOf? && ParseInt64(k.revision).Some? :: k.revision
  }

  function RecordOf(annotations: Annotations, text: string): Revision
    requires text in Recorded(annotations)
  {
    Revision(ParseInt64(text).value, text, annotations[PhaseOf(text)])
  }

  ghost predicate Sorted(rs: seq<Revision>) {
    forall i, j :: 0 <= i < j < |rs| ==> rs[i].number <= rs[j].number
  }

  ghost predicate DistinctTexts(rs: seq<Revision>) {
    forall i, j :: 0 <= i < j < |rs| ==> rs[i].text != rs[j].text
  }

  /** rs holds exactly the records of the given revisions, each once. */
  ghost predicate Lists(rs: seq<Revision>, annotations: Annotations, texts: set<string>) {
    && texts <= Recorded(annotations)
    && DistinctTexts(rs)
    && (forall r :: r in rs ==> r.text in texts && r == RecordOf(annotations, r.text))
    && (forall t :: t in texts ==> RecordOf(annotations, t) in rs)
  }

  /** One insertion of a stable sort: behind all records that are not greater. */
  function Insert(rs: seq<Revision>, r: Revision): (out: seq<Revision>)
    ensures |out| == |rs| + 1
    ensures forall x :: x in out <==> x == r || x in rs
  {
    if rs != [] && r.number < rs[|rs| - 1].number
    then
      assert rs == rs[..|rs| - 1] + [rs[|rs| - 1]];
      Insert(rs[..|rs| - 1], r) + [rs[|rs| - 1]]
    else rs + [r]
  }

  lemma {:induction false} InsertSorts(rs: seq<Revision>, r: Revision)
    requires Sorted(rs)
    ensures Sorted(Insert(rs, r))
  {
    if rs != [] && r.number < rs[|rs| - 1].number {
      var front, last := rs[..|rs| - 1], rs[|rs| - 1];
      InsertSorts(front, r);
      forall i | 0 <= i < |Insert(front, r)|
        ensures Insert(front, r)[i].number <= last.number
      {
        assert Insert(front, r)[i] in Insert(front, r);
      }
    }
  }

  lemma {:induction false} InsertDistinct(rs: seq<Revision>, r: Revision)
    requires DistinctTexts(rs) && forall x :: x in rs ==> x.text != r.text
    ensures DistinctTexts(Insert(rs, r))
  {
    if rs != [] && r.number < rs[|rs| - 1].number {
      var front, last := rs[..|rs| - 1], rs[|rs| - 1];
      InsertDistinct(front, r);
      forall i | 0 <= i < |Insert(front, r)|
        ensures Insert(front, r)[i].text != last.text
      {
        assert Insert(front, r)[i] in Insert(front, r);
      }
    }
  }

  function Sort(rs: seq<Revision>): (out: seq<Revision>)
    ensures forall x :: x in out <==> x in rs
  {
    if rs == [] then []
    else
      assert rs == rs[..|rs| - 1] + [rs[|rs| - 1]];
      Insert(Sort(rs[..|rs| - 1]), rs[|rs| - 1])
  }

  lemma {:induction false} SortSorts(rs: seq<Revision>)
    requires DistinctTexts(rs)
    ensures Sorted(Sort(rs)) && DistinctTexts(Sort(rs))
  {
    if rs != [] {
      var front, last := rs[..|rs| - 1], rs[|rs| - 1];
      SortSorts(front);
      InsertSorts(Sort(front), last);
      InsertDistinct(Sort(front), last);
    }
  }

  /** RetrieveRevision: the records in ascending order. Map iteration, and with it the order of
      records of equal number, is arbitrary. */
  method RetrieveRevision(annotations: Annotations) returns (rs: seq<Revision>)
    ensures Sorted(rs) && Lists(rs, annotations, Recorded(annotations))
  {
    var keys := annotations.Keys;
    rs := [];
    while keys != {}
      invariant keys <= annotations.Keys
      invariant DistinctTexts(rs)
      invariant forall r :: r in rs ==>
        PhaseOf(r.text) in annotations.Keys - keys && r.text in Recorded(annotations) && r == RecordOf(annotations, r.text)
      invariant forall t :: t in Recorded(annotations) && PhaseOf(t) !in keys ==> RecordOf(annotations, t) in rs
      decreases keys
    {
      var k :| k in keys;
      keys := keys - {k};
      if k.PhaseOf? && ParseInt64(k.revision).Some? {
        rs := rs + [RecordOf(annotations, k.revision)];
      }
    }
    SortSorts(rs);
    rs := Sort(rs);
  }

  // ------------------------------------------------------ garbage collection

  function PhaseKeys(rs: seq<Revision>): set<Key> {
    set r | r in rs :: PhaseOf(r.text)
  }

  /** GcRevision: all but the newest records. */
  function Excess(rs: seq<Revision>): seq<Revision> {
    if |rs| <= HISTORY_LIMIT then [] else rs[..|rs| - HISTORY_LIMIT]
  }

  /** after is before without the oldest records, for some order of records of equal number. */
  ghost predicate Collected(before: Annotations, after: Annotations) {
    exists rs ::
      && Sorted(rs) && Lists(rs, before, Recorded(before))
      && after == before - PhaseKeys(Excess(rs))
  }

  function Texts(rs: seq<Revision>): set<string> {
    set r | r in rs :: r.text
  }

  lemma {:induction false} TextsCount(rs: seq<Revision>)
    requires DistinctTexts(rs)
    ensures |Texts(rs)| == |rs|
  {
    if rs != [] {
      var front, last := rs[..|rs| - 1], rs[|rs| - 1];
      TextsCount(front);
      assert rs == front + [last];
      assert Texts(rs) == Texts(front) + {last.text};
    }
  }

  /** What is still recorded after the records rs[..cut] have been dropped. */
  lemma RecordedAfterCut(before: Annotations, rs: seq<Revision>, cut: nat)
    requires Lists(rs, before, Recorded(before)) && cut <= |rs|
    ensures Recorded(before - PhaseKeys(rs[..cut])) == Texts(rs[cut..])
  {
    var after := before - PhaseKeys(rs[..cut]);
    forall t
      ensures t in Recorded(after) <==> t in Texts(rs[cut..])
    {
      if t in Recorded(before) {
        var i :| 0 <= i < |rs| && rs[i] == RecordOf(before, t);
        assert i < cut ==> rs[i] in rs[..cut];
        assert cut <= i ==> rs[i] in rs[cut..];
      }
    }
  }

  /** Garbage collection drops the front of the sorted records. */
  lemma CollectedCuts(before: Annotations, after: Annotations) returns (rs: seq<Revision>, cut: nat)
    requires Collected(before, after)
    ensures Sorted(rs) && Lists(rs, before, Recorded(before)) && cut <= |rs|
    ensures after == before - PhaseKeys(rs[..cut]) && Recorded(after) == Texts(rs[cut..])
    ensures |Recorded(before)| == |rs| && |Recorded(after)| == |rs| - cut == Min(|rs|, HISTORY_LIMIT)
  {
    rs :| Sorted(rs) && Lists(rs, before, Recorded(before)) && after == before - PhaseKeys(Excess(rs));
    cut := if |rs| <= HISTORY_LIMIT then 0 else |rs| - HISTORY_LIMIT;
    assert Excess(rs) == rs[..cut];
    RecordedAfterCut(before, rs, cut);
    TextsCount(rs);
    TextsCount(rs[cut..]);
    assert Texts(rs) == Recorded(before);
  }

  /** Garbage collection removes only phase records; it keeps the newest ten, or all if there are
      no more; and no removed record is numerically greater than a kept one. */
  lemma CollectedKeepsNewest(before: Annotations, after: Annotations)
    requires Collected(before, after)
    ensures Recorded(after) <= Recorded(before)
    ensures |Recorded(after)| == Min(|Recorded(before)|, HISTORY_LIMIT)
    ensures forall k :: k in after ==> k in before && after[k] == before[k]
    ensures forall k :: k in before && k !in after ==> k.PhaseOf? && k.revision in Recorded(before) - Recorded(after)
    ensures forall gone, kept :: gone in Recorded(before) - Recorded(after) && kept in Recorded(after) ==>
              ParseInt64(gone).value <= ParseInt64(kept).value
  {
    var rs, cut := CollectedCuts(before, after);
    forall gone, kept | gone in Recorded(before) - Recorded(after) && kept in Recorded(after)
      ensures ParseInt64(gone).value <= ParseInt64(kept).value
    {
      CutOrder(before, rs, cut, gone, kept);
    }
  }

  lemma CutOrder(before: Annotations, rs: seq<Revision>, cut: nat, gone: string, kept: string)
    requires Sorted(rs) && Lists(rs, before, Recorded(before)) && cut <= |rs|
    requires gone in Recorded(before) && gone !in Texts(rs[cut..]) && kept in Texts(rs[cut..])
    ensures ParseInt64(gone).Some? && ParseInt64(kept).Some?
    ensures ParseInt64(gone).value <= ParseInt64(kept).value
  {
    forall n | cut <= n < |rs|
      ensures rs[n].text in Texts(rs[cut..])
    {
      assert rs[n] == rs[cut..][n - cut];
    }
    var i :| 0 <= i < |rs| && rs[i] == RecordOf(before, gone);
    var j :| 0 <= j < |rs| - cut && rs[cut..][j].text == kept;
    assert rs[cut + j] in rs;
  }

  // ------------------------------------------------------------- the configmap

  /** A result to record; encoded is its JSON form, reconciled says whether it carries a policy
      and an execution result. */
  datatype Result = Result(encoded: string, failed: bool, retry: bool, reconciled: bool)

  class ConfigMap {
    var annotations: Annotations

    constructor (annotations: Annotations)
      ensures this.annotations == annotations
    {
      this.annotations := annotations;
    }

    method GcConfigRevision()
      modifies this
      ensures Collected(old(annotations), annotations)
    {
      ghost var before := annotations;
      var rs := RetrieveRevision(annotations);
      var oldest := Excess(rs);
      for i := 0 to |oldest|
        invariant annotations == before - PhaseKeys(oldest[..i])
      {
        assert PhaseKeys(oldest[..i + 1]) == PhaseKeys(oldest[..i]) + {PhaseOf(oldest[i].text)} by {
          assert oldest[..i + 1] == oldest[..i] + [oldest[i]];
        }
        annotations := annotations - {PhaseOf(oldest[i].text)};
      }
      assert oldest[..|oldest|] == oldest;
    }

    /** updateConfigPhaseWithResult. */
    method UpdateConfigPhase(result: Result, patch: Outcome)
      modifies this
      ensures PhaseWritten(old(annotations), annotations, result, patch)
    {
      if Current !in annotations || annotations[Current] == "" {
        return;
      }
      var stored := annotations;
      var revision := annotations[Current];
      if result.failed && !result.retry {
        annotations := annotations[Disable := "true"];
      }
      ghost var marked := annotations;
      GcConfigRevision();
      ghost var collected := annotations;
      if PhaseOf(revision) !in annotations || result.reconciled {
        annotations := annotations[PhaseOf(revision) := result.encoded];
      }
      assert Collected(marked, collected);
      if !patch.Stored() {
        annotations := stored;
      }
    }

    /** updateAppliedConfigs, annotations only; nothing is stored if the hash cannot be computed. */
    method UpdateAppliedConfigs(configData: string, encoded: string, hashFails: bool, patch: Outcome)
      modifies this
      ensures hashFails ==> annotations == old(annotations)
      ensures !hashFails ==> AppliedWritten(old(annotations), annotations, configData, encoded, patch)
    {
      var stored := annotations;
      GcConfigRevision();
      ghost var collected := annotations;
      if Current in annotations && annotations[Current] != "" {
        annotations := annotations[PhaseOf(annotations[Current]) := encoded];
      }
      annotations := annotations[LastApplied := configData];
      annotations := annotations - {Policy};
      assert Collected(stored, collected);
      if hashFails || !patch.Stored() {
        annotations := stored;
      }
    }
  }

  predicate HasCurrent(annotations: Annotations) {
    Current in annotations && annotations[Current] != ""
  }

  /** The annotations after a phase write: collected, then the current record added unless it is
      there and the result is not from a policy. */
  ghost predicate PhaseWritten(before: Annotations, after: Annotations, result: Result, patch: Outcome) {
    if !HasCurrent(before) || !patch.Stored() then after == before
    else
      var marked := if result.failed && !result.retry then before[Disable := "true"] else before;
      var key := PhaseOf(before[Current]);
      exists collected ::
        && Collected(marked, collected)
        && after == if key !in collected || result.reconciled then collected[key := result.encoded] else collected
  }

  ghost predicate AppliedWritten(before: Annotations, after: Annotations, configData: string, encoded: string, patch: Outcome) {
    if !patch.Stored() then after == before
    else exists collected ::
      && Collected(before, collected)
      && after == (if HasCurrent(collected) then collected[PhaseOf(collected[Current]) := encoded] else collected)
                    [LastApplied := configData] - {Policy}
  }

  // ------------------------------------------------------------- every run

  datatype Write = Phase(result: Result, patch: Outcome) | Applied(configData: string, encoded: string, patch: Outcome)

  /** One write of the controller, or an edit by others that touches no phase record (such as a
      new current revision). */
  ghost predicate Next(before: Annotations, after: Annotations) {
    || (exists w: Write :: WriteStep(before, after, w))
    || forall r :: PhaseOf(r) in before <==> PhaseOf(r) in after
  }

  ghost predicate WriteStep(before: Annotations, after: Annotations, w: Write) {
    match w
    case Phase(result, patch) => PhaseWritten(before, after, result, patch)
    case Applied(configData, encoded, patch) => AppliedWritten(before, after, configData, encoded, patch)
  }

  /** Records depend on the phase keys only. */
  lemma SameRecords(a: Annotations, b: Annotations)
    requires forall r :: PhaseOf(r) in a <==> PhaseOf(r) in b
    ensures Recorded(a) == Recorded(b)
  {
    assert forall r :: r in Recorded(a) <==> PhaseOf(r) in a && ParseInt64(r).Some?;
    assert forall r :: r in Recorded(b) <==> PhaseOf(r) in b && ParseInt64(r).Some?;
  }

  lemma AddRecord(annotations: Annotations, revision: string, value: string)
    ensures Recorded(annotations[PhaseOf(revision) := value]) <= Recorded(annotations) + {revision}
    ensures |Recorded(annotations[PhaseOf(revision) := value])| <= |Recorded(annotations)| + 1
  {
    var after := annotations[PhaseOf(revision) := value];
    var both := Recorded(annotations) + {revision};
    assert both == Recorded(after) + (both - Recorded(after));
  }

  lemma PhaseWriteBound(before: Annotations, after: Annotations, result: Result, patch: Outcome)
    requires PhaseWritten(before, after, result, patch) && HasCurrent(before) && patch.Stored()
    ensures |Recorded(after)| <= HISTORY_LIMIT + 1 && PhaseOf(before[Current]) in after
  {
    var marked := if result.failed && !result.retry then before[Disable := "true"] else before;
    var key := PhaseOf(before[Current]);
    var collected :| Collected(marked, collected)
      && after == if key !in collected || result.reconciled then collected[key := result.encoded] else collected;
    CollectedKeepsNewest(marked, collected);
    AddRecord(collected, before[Current], result.encoded);
  }

  lemma AppliedWriteBound(before: Annotations, after: Annotations, configData: string, encoded: string, patch: Outcome)
    requires AppliedWritten(before, after, configData, encoded, patch) && patch.Stored()
    ensures |Recorded(after)| <= HISTORY_LIMIT + 1
    ensures HasCurrent(before) ==> PhaseOf(before[Current]) in after
  {
    var collected :| Collected(before, collected)
      && after == (if HasCurrent(collected) then collected[PhaseOf(collected[Current]) := encoded] else collected)
                    [LastApplied := configData] - {Policy};
    CollectedKeepsNewest(before, collected);
    var written := if HasCurrent(collected) then collected[PhaseOf(collected[Current]) := encoded] else collected;
    if HasCurrent(collected) {
      AddRecord(collected, collected[Current], encoded);
    }
    SameRecords(written, after);
  }

  /** After a stored write, at most eleven records remain and the current revision has one. */
  lemma WriteBound(before: Annotations, after: Annotations, w: Write)
    requires WriteStep(before, after, w) && w.patch.Stored()
    requires w.Phase? ==> HasCurrent(before)
    ensures |Recorded(after)| <= HISTORY_LIMIT + 1
    ensures HasCurrent(before) ==> PhaseOf(before[Current]) in after
  {
    match w
    case Phase(result, patch) => PhaseWriteBound(before, after, result, patch);
    case Applied(configData, encoded, patch) => AppliedWriteBound(before, after, configData, encoded, patch);
  }

  /** The key has the same value, or none, in both. */
  predicate SameAt(a: Annotations, b: Annotations, k: Key) {
    (k in a <==> k in b) && (k in a && k in b ==> a[k] == b[k])
  }

  lemma CollectedAt(before: Annotations, after: Annotations, k: Key)
    requires Collected(before, after)
    ensures k in after || !k.PhaseOf? ==> SameAt(before, after, k)
  {
    CollectedKeepsNewest(before, after);
  }

  /** What a stored phase write does to a key: the record of the current revision becomes the
      result's if that comes from a policy, or if there is none; a failure that is not retried
      disables reconfiguring; records of other revisions may go but do not change; nothing else is
      touched. */
  lemma PhaseWriteIs(before: Annotations, after: Annotations, result: Result, patch: Outcome, k: Key)
    requires PhaseWritten(before, after, result, patch) && patch.Stored()
    requires Current in before && before[Current] != ""
    ensures k == PhaseOf(before[Current]) ==>
      && k in after
      && (result.reconciled || k !in before ==> after[k] == result.encoded)
      && (after[k] == result.encoded || SameAt(before, after, k))
    ensures k.PhaseOf? && k.revision != before[Current] && k in after ==> SameAt(before, after, k)
    ensures k == Disable && result.failed && !result.retry ==> k in after && after[k] == "true"
    ensures !k.PhaseOf? && !(k == Disable && result.failed && !result.retry) ==> SameAt(before, after, k)
  {
    var marked := if result.failed && !result.retry then before[Disable := "true"] else before;
    var key := PhaseOf(before[Current]);
    var collected :| Collected(marked, collected)
      && after == if key !in collected || result.reconciled then collected[key := result.encoded] else collected;
    CollectedAt(marked, collected, k);
  }

  /** And a stored write of an applied configuration: it is remembered, the policy is dropped, and
      the record of the current revision is the new one. */
  lemma AppliedWriteIs(before: Annotations, after: Annotations, configData: string, encoded: string, patch: Outcome, k: Key)
    requires AppliedWritten(before, after, configData, encoded, patch) && patch.Stored()
    ensures k == LastApplied ==> k in after && after[k] == configData
    ensures k == Policy ==> k !in after
    ensures Current in before && before[Current] != "" && k == PhaseOf(before[Current]) ==> k in after && after[k] == encoded
    ensures k.PhaseOf? && k in after && !(Current in before && before[Current] != "" && k.revision == before[Current]) ==>
              SameAt(before, after, k)
    ensures k == Current || k == Disable || k.OtherKey? ==> SameAt(before, after, k)
  {
    var collected :| Collected(before, collected)
      && after == (if HasCurrent(collected) then collected[PhaseOf(collected[Current]) := encoded] else collected)
                    [LastApplied := configData] - {Policy};
    CollectedAt(before, collected, k);
    CollectedAt(before, collected, Current);
  }

  /** The history is bounded over every run: eleven records at most, if it starts so. */
  lemma {:induction false} HistoryIsBounded(states: seq<Annotations>)
    requires states != [] && |Recorded(states[0])| <= HISTORY_LIMIT + 1
    requires forall i :: 0 <= i < |states| - 1 ==> Next(states[i], states[i + 1])
    ensures |Recorded(states[|states| - 1])| <= HISTORY_LIMIT + 1
  {
    if |states| > 1 {
      var front := states[..|states| - 1];
      HistoryIsBounded(front);
      var before, after := states[|states| - 2], states[|states| - 1];
      if w: Write :| WriteStep(before, after, w) {
        if w.patch.Stored() && (w.Phase? ==> HasCurrent(before)) {
          WriteBound(before, after, w);
        } else {
          assert after == before;
        }
      } else {
        SameRecords(before, after);
      }
    }
  }

  // -------------------------------------------------------------- syncStatus

  /** The fields of the item status that syncStatus writes; the reconcile detail is read off the
      record that it holds here. */
  datatype ItemStatus = ItemStatus(updateRevision: string, phase: string, detail: Option<Revision>, lastDone: string)

  const FINISHED := "Finished"

  /** The last-done revision once the records have been visited in order. */
  function LastDone(rs: seq<Revision>, phaseOf: string -> string, before: string): string {
    if rs == [] then before
    else if phaseOf(rs[|rs| - 1].value) == FINISHED then FormatInt(rs[|rs| - 1].number)
    else LastDone(rs[..|rs| - 1], phaseOf, before)
  }

  /** The record of a revision once the records have been visited in order. */
  function RecordIn(rs: seq<Revision>, revision: string): Option<Revision> {
    if rs == [] then None
    else if rs[|rs| - 1].text == revision then Some(rs[|rs| - 1])
    else RecordIn(rs[..|rs| - 1], revision)
  }

  lemma {:induction false} LastDoneIsGreatest(rs: seq<Revision>, phaseOf: string -> string, before: string) returns (j: nat)
    requires Sorted(rs)
    ensures j <= |rs|
    ensures j == |rs| ==> LastDone(rs, phaseOf, before) == before
    ensures j < |rs| ==> phaseOf(rs[j].value) == FINISHED && LastDone(rs, phaseOf, before) == FormatInt(rs[j].number)
    ensures forall i :: 0 <= i < |rs| && phaseOf(rs[i].value) == FINISHED ==> j < |rs| && rs[i].number <= rs[j].number
  {
    if rs == [] {
      j := 0;
    } else if phaseOf(rs[|rs| - 1].value) == FINISHED {
      j := |rs| - 1;
    } else {
      var front := rs[..|rs| - 1];
      var k := LastDoneIsGreatest(front, phaseOf, before);
      j := if k == |front| then |rs| else k;
      forall i | 0 <= i < |rs| && phaseOf(rs[i].value) == FINISHED
        ensures j < |rs| && rs[i].number <= rs[j].number
      {
        assert i < |front| && front[i] == rs[i];
        assert k < |front| && front[k] == rs[k];
      }
    }
  }

  lemma {:induction false} RecordInIs(rs: seq<Revision>, revision: string)
    requires DistinctTexts(rs)
    ensures RecordIn(rs, revision).None? <==> forall r :: r in rs ==> r.text != revision
    ensures forall r :: r in rs && r.text == revision ==> RecordIn(rs, revision) == Some(r)
  {
    if rs != [] {
      RecordInIs(rs[..|rs| - 1], revision);
      assert rs == rs[..|rs| - 1] + [rs[|rs| - 1]];
    }
  }

  /** The status with phase and detail of the record, if there is one. */
  function WithRecord(status: ItemStatus, r: Option<Revision>, phaseOf: string -> string): ItemStatus {
    if r.None? then status else status.(phase := phaseOf(r.value.value), detail := r)
  }

  /** syncStatus. The phase of a record is read off its annotation value. */
  method SyncStatus(annotations: Annotations, status: ItemStatus, phaseOf: string -> string)
    returns (out: ItemStatus)
    ensures var known := status.updateRevision in Recorded(annotations);
      && out.updateRevision == status.updateRevision
      && (known ==> var r := RecordOf(annotations, status.updateRevision);
                    out.phase == phaseOf(r.value) && out.detail == Some(r))
      && (!known ==> out.phase == status.phase && out.detail == status.detail)
    ensures IsLastDone(annotations, phaseOf, status.lastDone, out.lastDone)
  {
    var rs := RetrieveRevision(annotations);
    out := status;
    for i := 0 to |rs|
      invariant out == WithRecord(status, RecordIn(rs[..i], status.updateRevision), phaseOf)
                       .(lastDone := LastDone(rs[..i], phaseOf, status.lastDone))
    {
      assert rs[..i + 1][..i] == rs[..i];
      if rs[i].text == status.updateRevision {
        out := out.(phase := phaseOf(rs[i].value), detail := Some(rs[i]));
      }
      if phaseOf(rs[i].value) == FINISHED {
        out := out.(lastDone := FormatInt(rs[i].number));
      }
    }
    assert rs[..|rs|] == rs;
    RecordInIs(rs, status.updateRevision);
    FinishedIsFound(annotations, rs, phaseOf, status.lastDone);
  }

  /** In the list of all records, the last-done revision is the greatest finished one. */
  lemma FinishedIsFound(annotations: Annotations, rs: seq<Revision>, phaseOf: string -> string, before: string)
    requires Sorted(rs) && Lists(rs, annotations, Recorded(annotations))
    ensures IsLastDone(annotations, phaseOf, before, LastDone(rs, phaseOf, before))
  {
    var j := LastDoneIsGreatest(rs, phaseOf, before);
    if j < |rs| {
      var t := rs[j].text;
      assert rs[j] in rs;
      forall u | u in Recorded(annotations) && phaseOf(RecordOf(annotations, u).value) == FINISHED
        ensures ParseInt64(u).value <= ParseInt64(t).value
      {
        var i :| 0 <= i < |rs| && rs[i] == RecordOf(annotations, u);
      }
      NumberInRange(t);
      assert IsGreatestFinished(annotations, phaseOf, t);
    } else {
      forall u | u in Recorded(annotations)
        ensures phaseOf(RecordOf(annotations, u).value) != FINISHED
      {
        var i :| 0 <= i < |rs| && rs[i] == RecordOf(annotations, u);
      }
    }
  }

  lemma NumberInRange(t: string)
    ensures ParseInt64(t).Some? ==> -MAX_INT64 - 1 <= ParseInt64(t).value <= MAX_INT64
  {
  }

  /** after names the greatest finished revision, or is before when none is finished. */
  ghost predicate IsLastDone(annotations: Annotations, phaseOf: string -> string, before: string, after: string) {
    if NoneFinished(annotations, phaseOf) then after == before
    else exists t :: IsGreatestFinished(annotations, phaseOf, t) && ParseInt64(after) == ParseInt64(t)
  }

  ghost predicate NoneFinished(annotations: Annotations, phaseOf: string -> string) {
    forall t :: t in Recorded(annotations) ==> phaseOf(RecordOf(annotations, t).value) != FINISHED
  }

  /** t is recorded as finished, and no finished revision has a greater number. */
  ghost predicate IsGreatestFinished(annotations: Annotations, phaseOf: string -> string, t: string) {
    && t in Recorded(annotations) && phaseOf(RecordOf(annotations, t).value) == FINISHED
    && forall u :: u in Recorded(annotations) && phaseOf(RecordOf(annotations, u).value) == FINISHED ==>
         ParseInt64(u).value <= ParseInt64(t).value
  }
}
