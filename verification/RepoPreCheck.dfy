/** The BackupRepo pre-check protocol as a small-step machine.

    Every API call of one reconcile is a step of its own. Between two steps the
    user may edit the configuration, the pre-check job may progress or vanish,
    derived secrets may be deleted, and the controller may crash. A write may be
    applied, refused, or applied with the reply lost; in every case the in-memory
    copy of the repo has already been changed, as in the controller.

    Sources: controllers/dataprotection/backuprepo_controller.go. */
module RepoPreCheck {
  import opened Common

  type Digest = string

  /** Status of the condition PreCheckPassed; Unset when it is absent. */
  datatype Cond = Unset | CondUnknown | CondFalse | CondTrue

  datatype Phase = NoPhase | PreChecking | Failed | Ready

  datatype Access = Mount | Tool

  /** The conditions that the checks before the pre-check maintain, in their order. */
  datatype Basic = ProviderReady | ParametersChecked | StorageClassCreated | PvcTemplateChecked

  /** Which of them are True. */
  datatype Basics = Basics(provider: bool, parameters: bool, storageClass: bool, template: bool) {
    function With(b: Basic, v: bool): Basics {
      match b
      case ProviderReady => this.(provider := v)
      case ParametersChecked => this.(parameters := v)
      case StorageClassCreated => this.(storageClass := v)
      case PvcTemplateChecked => this.(template := v)
    }

    /** Those before b are True. */
    predicate UpTo(b: Basic) {
      match b
      case ProviderReady => true
      case ParametersChecked => provider
      case StorageClassCreated => provider && parameters
      case PvcTemplateChecked => provider && parameters && storageClass
    }
  }

  const ALL_BASICS := Basics(true, true, true, true)

  /** The fields of a BackupRepo that the protocol reads and writes: the basic conditions that
      are True, the pre-check condition, the digest annotation, the need-update-tool-config
      annotation, the phase. */
  datatype Repo = Repo(basics: Basics, cond: Cond, annot: Digest, flag: string, phase: Phase)

  datatype JobState = JobRunning | JobSucceeded | JobFailed

  datatype Job = Job(digest: Digest, state: JobState)

  /** Tool-config secrets of the repo: the one of the pre-check, and one for each
      namespace that uses the repo. Both carry the tool-config label. */
  datatype SecretKey = PreCheckSecret | NamespaceSecret(namespace: string)

  /** Where an error came from: a basic check, or preCheckRepo, with the last write refused. */
  datatype Origin = InBasics | InPreCheck(refused: bool)

  /** Where a reconcile stands. Undo is the deferred update that takes back StorageClassCreated
      after a failed patch; Defer is the deferred condition update of preCheckRepo; ErrStatus is
      the updateStatus call that precedes an error return. */
  datatype Pc =
    | Check(basic: Basic)
    | Undo
    | Compare
    | Annotate
    | Gate
    | EnsureAux
    | EnsureJob(aux: Digest)
    | Verify(aux: Digest, job: Job)
    | Defer(status: Cond, failed: bool)
    | ErrStatus(origin: Origin)
    | Status
    | Clear
    | Secrets
    | Patch(todo: map<SecretKey, Digest>)
    | Flag
    | Prepare

  /** A running reconcile knows its own digest once it has read the parameters. */
  datatype Controller = Idle | Run(pc: Pc, digest: Option<Digest>, mem: Repo) {
    /** getDigest, which is not called before. */
    function Own(): Digest
      requires Run?
    {
      if digest.Some? then digest.value else ""
    }
  }

  /** Two history variables: passed, the digests for which a job carrying that digest has
      completed, and failed, those for which one has failed or was given up after the timeout. */
  datatype State = State(
    access: Access,
    config: Digest,
    repo: Repo,
    job: Option<Job>,
    pvc: Option<Digest>,
    secrets: map<SecretKey, Digest>,
    passed: set<Digest>,
    failed: set<Digest>,
    ctl: Controller)

  datatype Step =
    // environment
    | EditConfig(config: Digest)
    | JobSucceeds
    | JobFails
    | JobVanishes
    | PvcVanishes
    | SecretVanishes(key: SecretKey)
    | Crash
    // controller
    | Begin
    | CheckBasic(passes: bool, rewrite: bool, outcome: Outcome)
    | WriteUndo(outcome: Outcome)
    | CompareDigest(outcome: Outcome)
    | WriteAnnotations(outcome: Outcome)
    | CheckFinished
    | PrepareFails
    | CreateAux(outcome: Outcome)
    | CreateJob(outcome: Outcome)
    | InspectJob(removed: bool, timeout: bool, logsFail: bool)
    | WriteCondition(outcome: Outcome)
    | WriteStatus(outcome: Outcome)
    | ClearResources(failed: bool)
    | ListSecrets
    | PatchSecret(key: SecretKey, outcome: Outcome)
    | PatchDone
    | WriteFlag(outcome: Outcome)
    | CreateNamespaceSecret(namespace: string, outcome: Outcome)
    | Finish

  predicate Finished(c: Cond) {
    c.CondFalse? || c.CondTrue?
  }

  /** The phase that updateStatus computes from the in-memory conditions. */
  function PhaseFor(mem: Repo): Phase {
    if mem.basics == ALL_BASICS && mem.cond.CondTrue? then Ready
    else if mem.basics == ALL_BASICS && mem.cond.CondUnknown? then PreChecking
    else Failed
  }

  // ---------------------------------------------------------------- steps

  function Environment(s: State, step: Step): State
    requires step.EditConfig? || step.JobSucceeds? || step.JobFails? || step.JobVanishes?
          || step.PvcVanishes? || step.SecretVanishes? || step.Crash?
  {
    match step
    case EditConfig(c) => s.(config := c)
    case JobSucceeds =>
      if s.job.Some? && s.job.value.state.JobRunning? then
        s.(job := Some(s.job.value.(state := JobSucceeded)), passed := s.passed + {s.job.value.digest})
      else s
    case JobFails =>
      if s.job.Some? && s.job.value.state.JobRunning? then
        s.(job := Some(s.job.value.(state := JobFailed)), failed := s.failed + {s.job.value.digest})
      else s
    case JobVanishes => s.(job := None)
    case PvcVanishes => s.(pvc := None)
    case SecretVanishes(k) => s.(secrets := s.secrets - {k})
    case Crash => s.(ctl := Idle)
  }

  function Goto(s: State, pc: Pc): State
    requires s.ctl.Run?
  {
    s.(ctl := s.ctl.(pc := pc))
  }

  /** A status patch whose diff contains the condition list: merge patches replace
      lists as a whole, so the stored conditions become the in-memory ones. */
  function PatchConditions(s: State, mem: Repo, outcome: Outcome): State
    requires s.ctl.Run?
  {
    s.(repo := if outcome.Stored() then s.repo.(basics := mem.basics, cond := mem.cond) else s.repo,
       ctl := s.ctl.(mem := mem))
  }

  function PatchCondition(s: State, c: Cond, outcome: Outcome): State
    requires s.ctl.Run?
  {
    PatchConditions(s, s.ctl.mem.(cond := c), outcome)
  }

  function AfterBasic(b: Basic): Pc {
    match b
    case ProviderReady => Check(ParametersChecked)
    case ParametersChecked => Check(StorageClassCreated)
    case StorageClassCreated => Check(PvcTemplateChecked)
    case PvcTemplateChecked => Compare
  }

  /** One basic check and the update of its condition, which is set in memory before it is
      patched. A condition that stays True is patched again only where its reason, or other
      status fields, can change; that is the choice rewrite. A failed patch of
      StorageClassCreated is taken back by a second, deferred one. */
  function Checked(s: State, b: Basic, passes: bool, rewrite: bool, outcome: Outcome): State
    requires s.ctl.Run?
  {
    var mem := s.ctl.mem;
    var m := mem.(basics := mem.basics.With(b, passes));
    var writes := m.basics != mem.basics
               || (rewrite && (!passes || b.PvcTemplateChecked? || b.StorageClassCreated?));
    var read := if passes && b.ParametersChecked? then s.(ctl := s.ctl.(digest := Some(s.config))) else s;
    var t := if writes then PatchConditions(read, m, outcome) else read;
    if passes && (writes ==> !outcome.Error()) then Goto(t, AfterBasic(b))
    else if passes && b.StorageClassCreated? then
      Goto(t.(ctl := t.ctl.(mem := m.(basics := m.basics.With(b, false)))), Undo)
    else Goto(t, ErrStatus(InBasics))
  }

  /** Reconcile up to and including preCheckRepo's digest comparison. */
  function Opening(s: State, step: Step): State {
    match step
    case Begin =>
      if s.ctl.Idle? then s.(ctl := Run(Check(ProviderReady), None, s.repo)) else s
    case CheckBasic(passes, rewrite, outcome) =>
      if s.ctl.Run? && s.ctl.pc.Check? then Checked(s, s.ctl.pc.basic, passes, rewrite, outcome) else s
    case WriteUndo(outcome) =>
      if s.ctl.Run? && s.ctl.pc.Undo?
      then Goto(PatchConditions(s, s.ctl.mem, outcome), ErrStatus(InBasics)) else s
    case CompareDigest(outcome) =>
      if s.ctl.Run? && s.ctl.pc.Compare? then
        if s.ctl.mem.annot == s.ctl.Own() then Goto(s, Gate)
        else
          var t := PatchCondition(s, CondUnknown, outcome);
          Goto(t, if outcome.Error() then ErrStatus(InPreCheck(outcome.Refused?)) else Annotate)
      else s
    case WriteAnnotations(outcome) =>
      if s.ctl.Run? && s.ctl.pc.Annotate? then
        var d := s.ctl.Own();
        var t := s.(repo := if outcome.Stored() then s.repo.(annot := d, flag := "true") else s.repo,
                    ctl := s.ctl.(mem := s.ctl.mem.(annot := d, flag := "true")));
        Goto(t, if outcome.Error() then ErrStatus(InPreCheck(outcome.Refused?)) else Gate)
      else s
    case _ => s
  }

  function AuxDigest(s: State): Option<Digest> {
    match s.access
    case Mount => s.pvc
    case Tool => if PreCheckSecret in s.secrets then Some(s.secrets[PreCheckSecret]) else None
  }

  function PutAux(s: State, d: Digest): State {
    match s.access
    case Mount => s.(pvc := Some(d))
    case Tool => s.(secrets := s.secrets[PreCheckSecret := d])
  }

  /** The state after removePreCheckResources. */
  function Cleared(s: State): State {
    s.(job := None, pvc := None, secrets := s.secrets - {PreCheckSecret})
  }

  /** Left over from another configuration. */
  predicate IsStale(d: Digest, aux: Digest, job: Job) {
    aux != d || job.digest != d
  }

  /** The verdict that preCheckRepo stores in its deferred update, once it has looked at
      the job that createObjectIfNotExist returned. */
  function Verdict(d: Digest, aux: Digest, job: Job, timeout: bool, logsFail: bool): Pc {
    if IsStale(d, aux, job) then Defer(CondUnknown, true)
    else match job.state
      case JobRunning => if timeout then Defer(CondFalse, logsFail) else Defer(CondUnknown, true)
      case JobFailed => Defer(CondFalse, logsFail)
      case JobSucceeded => Defer(CondTrue, false)
  }

  /** The state in which a running job has exceeded the timeout. */
  function GivenUp(s: State, job: Job): State {
    if job.state.JobRunning? then s.(failed := s.failed + {job.digest}) else s
  }

  /** The job part of preCheckRepo and its deferred condition update. */
  function Checking(s: State, step: Step): State {
    match step
    case CheckFinished =>
      if s.ctl.Run? && s.ctl.pc.Gate?
      then Goto(s, if Finished(s.ctl.mem.cond) then Status else EnsureAux) else s
    case PrepareFails =>
      if s.ctl.Run? && (s.ctl.pc.EnsureAux? || s.ctl.pc.EnsureJob?)
      then Goto(s, Defer(CondUnknown, true)) else s
    case CreateAux(outcome) =>
      if s.ctl.Run? && s.ctl.pc.EnsureAux? then
        if AuxDigest(s).Some? then Goto(s, EnsureJob(AuxDigest(s).value))
        else
          var t := if outcome.Stored() then PutAux(s, s.ctl.Own()) else s;
          Goto(t, if outcome.Error() then Defer(CondUnknown, true) else EnsureJob(s.ctl.Own()))
      else s
    case CreateJob(outcome) =>
      if s.ctl.Run? && s.ctl.pc.EnsureJob? then
        if s.job.Some? then Goto(s, Verify(s.ctl.pc.aux, s.job.value))
        else
          var j := Job(s.ctl.Own(), JobRunning);
          var t := if outcome.Stored() then s.(job := Some(j)) else s;
          Goto(t, if outcome.Error() then Defer(CondUnknown, true) else Verify(s.ctl.pc.aux, j))
      else s
    case InspectJob(removed, timeout, logsFail) =>
      if s.ctl.Run? && s.ctl.pc.Verify? then
        var t := if removed && IsStale(s.ctl.Own(), s.ctl.pc.aux, s.ctl.pc.job)
                 then Cleared(s) else s;
        Goto(if timeout then GivenUp(t, s.ctl.pc.job) else t,
             Verdict(s.ctl.Own(), s.ctl.pc.aux, s.ctl.pc.job, timeout, logsFail))
      else s
    case WriteCondition(outcome) =>
      if s.ctl.Run? && s.ctl.pc.Defer? then
        var t := PatchCondition(s, s.ctl.pc.status, outcome);
        Goto(t, if s.ctl.pc.failed || outcome.Error() then ErrStatus(InPreCheck(outcome.Refused?)) else Status)
      else s
    case _ => s
  }

  function WithPhase(s: State, p: Phase, outcome: Outcome): State
    requires s.ctl.Run?
  {
    s.(repo := if outcome.Stored() then s.repo.(phase := p) else s.repo,
       ctl := s.ctl.(mem := s.ctl.mem.(phase := p)))
  }

  /** updateStatus and removal of the pre-check resources. */
  function Reporting(s: State, step: Step): State {
    match step
    case WriteStatus(outcome) =>
      if s.ctl.Run? && s.ctl.pc.ErrStatus? then
        WithPhase(s, PhaseFor(s.ctl.mem), outcome).(ctl := Idle)
      else if s.ctl.Run? && s.ctl.pc.Status? then
        var t := WithPhase(s, PhaseFor(s.ctl.mem), outcome);
        if outcome.Error() then t.(ctl := Idle) else Goto(t, Clear)
      else s
    case ClearResources(failed) =>
      if s.ctl.Run? && s.ctl.pc.Clear? then
        var t := if Finished(s.ctl.mem.cond) then Cleared(s) else s;
        if failed then s.(ctl := Idle)
        else if s.ctl.mem.phase.Ready? then Goto(t, Secrets)
        else t.(ctl := Idle)
      else s
    case _ => s
  }

  /** updateToolConfigSecrets, and creation of secrets for waiting backups and restores. */
  function Distributing(s: State, step: Step): State {
    match step
    case ListSecrets =>
      if s.ctl.Run? && s.ctl.pc.Secrets? then
        Goto(s, if s.access.Tool? && s.ctl.mem.flag == "true" then Patch(s.secrets) else Prepare)
      else s
    case PatchSecret(k, outcome) =>
      if s.ctl.Run? && s.ctl.pc.Patch? && k in s.ctl.pc.todo then
        var rest := Goto(s, Patch(s.ctl.pc.todo - {k}));
        if s.ctl.pc.todo[k] == s.ctl.Own() then rest
        else if k !in s.secrets then s.(ctl := Idle)
        else
          var patched := s.secrets[k := s.ctl.Own()];
          if outcome.Applied? then rest.(secrets := patched)
          else s.(secrets := if outcome.Lost? then patched else s.secrets, ctl := Idle)
      else s
    case PatchDone =>
      if s.ctl.Run? && s.ctl.pc.Patch? && s.ctl.pc.todo == map[] then Goto(s, Flag) else s
    case WriteFlag(outcome) =>
      if s.ctl.Run? && s.ctl.pc.Flag? then
        var t := s.(repo := if outcome.Stored() then s.repo.(flag := "false") else s.repo,
                    ctl := s.ctl.(mem := s.ctl.mem.(flag := "false")));
        if outcome.Error() then t.(ctl := Idle) else Goto(t, Prepare)
      else s
    case CreateNamespaceSecret(ns, outcome) =>
      if s.ctl.Run? && s.ctl.pc.Prepare? && s.access.Tool?
         && NamespaceSecret(ns) !in s.secrets && outcome.Stored()
      then s.(secrets := s.secrets[NamespaceSecret(ns) := s.ctl.Own()]) else s
    case Finish =>
      if s.ctl.Run? && s.ctl.pc.Prepare? then s.(ctl := Idle) else s
    case _ => s
  }

  /** One step; a step that is not enabled leaves the state unchanged. */
  function Next(s: State, step: Step): State {
    match step
    case EditConfig(_) => Environment(s, step)
    case JobSucceeds => Environment(s, step)
    case JobFails => Environment(s, step)
    case JobVanishes => Environment(s, step)
    case PvcVanishes => Environment(s, step)
    case SecretVanishes(_) => Environment(s, step)
    case Crash => Environment(s, step)
    case Begin => Opening(s, step)
    case CheckBasic(_, _, _) => Opening(s, step)
    case WriteUndo(_) => Opening(s, step)
    case CompareDigest(_) => Opening(s, step)
    case WriteAnnotations(_) => Opening(s, step)
    case CheckFinished => Checking(s, step)
    case PrepareFails => Checking(s, step)
    case CreateAux(_) => Checking(s, step)
    case CreateJob(_) => Checking(s, step)
    case InspectJob(_, _, _) => Checking(s, step)
    case WriteCondition(_) => Checking(s, step)
    case WriteStatus(_) => Reporting(s, step)
    case ClearResources(_) => Reporting(s, step)
    case _ => Distributing(s, step)
  }

  function Exec(s: State, steps: seq<Step>): State {
    if steps == [] then s else Next(Exec(s, steps[..|steps| - 1]), steps[|steps| - 1])
  }

  predicate Initial(s: State) {
    && s.repo == Repo(Basics(false, false, false, false), Unset, "", "", NoPhase)
    && s.job.None? && s.pvc.None? && s.secrets == map[] && s.passed == {} && s.failed == {} && s.ctl.Idle?
  }

  // ----------------------------------------------------------- invariants

  /** Stored PreCheckPassed=True means a job with exactly the annotated digest completed. */
  predicate PreCheckSound(s: State) {
    s.repo.cond.CondTrue? ==> s.repo.annot in s.passed
  }

  /** Stored PreCheckPassed=False means one with that digest failed, or exceeded the timeout. */
  predicate FailureSound(s: State) {
    s.repo.cond.CondFalse? ==> s.repo.annot in s.failed
  }

  predicate AllAt(secrets: map<SecretKey, Digest>, d: Digest) {
    forall k :: k in secrets ==> secrets[k] == d
  }

  /** Flag "false" means that every tool-config secret carries the annotated digest. */
  predicate ToolConfigAgrees(s: State) {
    s.repo.flag == "false" ==> AllAt(s.secrets, s.repo.annot)
  }

  /** What the state of a job says has happened. */
  predicate Witnessed(s: State, job: Job) {
    (job.state.JobSucceeded? ==> job.digest in s.passed) && (job.state.JobFailed? ==> job.digest in s.failed)
  }

  predicate JobSound(s: State) {
    s.job.Some? ==> Witnessed(s, s.job.value)
  }

  /** Memory and store agree on the pre-check condition and the annotations. */
  predicate InSync(s: State)
    requires s.ctl.Run?
  {
    && s.ctl.mem.cond == s.repo.cond
    && s.ctl.mem.annot == s.repo.annot
    && s.ctl.mem.flag == s.repo.flag
  }

  /** In sync, with all basic checks passed and stored. */
  predicate BasicsDone(s: State)
    requires s.ctl.Run?
  {
    InSync(s) && s.ctl.mem.basics == ALL_BASICS && s.repo.basics == ALL_BASICS
  }

  /** And annotated with this reconcile's own digest. */
  predicate OnDigest(s: State)
    requires s.ctl.Run?
  {
    BasicsDone(s) && s.ctl.digest == Some(s.repo.annot)
  }

  predicate Checkable(s: State)
    requires s.ctl.Run?
  {
    OnDigest(s) && !Finished(s.repo.cond)
  }

  predicate AtPc(s: State)
    requires s.ctl.Run?
  {
    match s.ctl.pc
    case Check(b) =>
      && InSync(s) && s.ctl.mem.basics == s.repo.basics && s.repo.basics.UpTo(b)
      && (b.StorageClassCreated? || b.PvcTemplateChecked? ==> s.ctl.digest.Some?)
    case Undo => InSync(s)
    case Compare => BasicsDone(s) && s.ctl.digest.Some?
    case Annotate => BasicsDone(s) && s.ctl.digest.Some? && s.repo.cond.CondUnknown?
    case Gate => OnDigest(s)
    case EnsureAux => Checkable(s)
    case EnsureJob(_) => Checkable(s)
    case Verify(_, job) => Checkable(s) && Witnessed(s, job)
    case Defer(status, failed) =>
      && Checkable(s)
      && (status.CondTrue? ==> !failed && s.repo.annot in s.passed)
      && (status.CondFalse? ==> s.repo.annot in s.failed)
    case ErrStatus(InBasics) => InSync(s)
    case ErrStatus(InPreCheck(refused)) =>
      s.ctl.mem.cond.CondTrue? ==>
        && s.ctl.digest == Some(s.repo.annot)
        && s.repo.annot in s.passed
        && (s.repo.cond.CondTrue? <==> !refused)
    case Status => OnDigest(s)
    case Clear => OnDigest(s)
    case Secrets => OnDigest(s)
    case Patch(todo) =>
      && OnDigest(s)
      && forall k :: k in s.secrets && s.secrets[k] != s.repo.annot ==> k in todo && todo[k] == s.secrets[k]
    case Flag => OnDigest(s) && AllAt(s.secrets, s.repo.annot)
    case Prepare => OnDigest(s)
  }

  predicate Inv(s: State) {
    && PreCheckSound(s)
    && FailureSound(s)
    && ToolConfigAgrees(s)
    && JobSound(s)
    && (s.ctl.Run? ==> AtPc(s))
  }

  /** Histories only grow, so what they witness stays. */
  lemma GrowthKeepsInv(s: State, passed: set<Digest>, failed: set<Digest>, job: Option<Job>)
    requires Inv(s) && s.passed <= passed && s.failed <= failed
    requires job.Some? ==> Witnessed(s.(passed := passed, failed := failed), job.value)
    ensures Inv(s.(job := job, passed := passed, failed := failed))
  {
  }

  lemma JobKeepsInv(s: State, step: Step)
    requires Inv(s) && (step.JobSucceeds? || step.JobFails? || step.JobVanishes?)
    ensures Inv(Environment(s, step))
  {
    var t := Environment(s, step);
    GrowthKeepsInv(s, t.passed, t.failed, t.job);
    assert t == s.(job := t.job, passed := t.passed, failed := t.failed);
  }

  lemma EnvironmentKeepsInv(s: State, step: Step)
    requires Inv(s)
    requires step.EditConfig? || step.JobSucceeds? || step.JobFails? || step.JobVanishes?
          || step.PvcVanishes? || step.SecretVanishes? || step.Crash?
    ensures Inv(Environment(s, step))
  {
    if step.JobSucceeds? || step.JobFails? || step.JobVanishes? {
      JobKeepsInv(s, step);
    }
  }

  /** t is s after basic check b, up to the stored and remembered basic conditions. */
  predicate AfterCheck(s: State, t: State, b: Basic, passes: bool) {
    && s.ctl.Run? && t.ctl.Run? && InSync(t)
    && t == s.(repo := s.repo.(basics := t.repo.basics), ctl := t.ctl)
    && (t.ctl.pc == AfterBasic(b) || t.ctl.pc.Undo? || t.ctl.pc == ErrStatus(InBasics))
    && t.ctl.digest == (if passes && b.ParametersChecked? then Some(s.config) else s.ctl.digest)
    && (t.ctl.pc == AfterBasic(b) ==> passes && t.ctl.mem.basics == t.repo.basics == s.repo.basics.With(b, true))
    && (t.ctl.pc == ErrStatus(InBasics) ==> t.ctl.mem.basics == s.repo.basics.With(b, passes))
  }

  lemma CheckedIs(s: State, b: Basic, passes: bool, rewrite: bool, outcome: Outcome)
    requires s.ctl.Run? && InSync(s) && s.ctl.mem.basics == s.repo.basics
    ensures AfterCheck(s, Checked(s, b, passes, rewrite, outcome), b, passes)
  {
  }

  lemma AfterCheckKeepsInv(s: State, t: State, b: Basic, passes: bool)
    requires Inv(s) && s.ctl.Run? && s.ctl.pc == Check(b) && AfterCheck(s, t, b, passes)
    ensures Inv(t)
  {
    assert AtPc(s);
    assert AtPc(t);
  }

  lemma BasicKeepsInv(s: State, step: Step)
    requires Inv(s) && step.CheckBasic?
    ensures Inv(Opening(s, step))
  {
    if s.ctl.Run? && s.ctl.pc.Check? {
      var b := s.ctl.pc.basic;
      CheckedIs(s, b, step.passes, step.rewrite, step.outcome);
      AfterCheckKeepsInv(s, Opening(s, step), b, step.passes);
    }
  }

  lemma AnnotatingKeepsInv(s: State, step: Step)
    requires Inv(s) && step.WriteAnnotations?
    ensures Inv(Opening(s, step))
  {
  }

  lemma OpeningKeepsInv(s: State, step: Step)
    requires Inv(s)
    ensures Inv(Opening(s, step))
  {
    if step.CheckBasic? {
      BasicKeepsInv(s, step);
    } else if step.WriteAnnotations? {
      AnnotatingKeepsInv(s, step);
    }
  }

  lemma AuxKeepsInv(s: State, step: Step)
    requires Inv(s) && step.CreateAux?
    ensures Inv(Checking(s, step))
  {
  }

  lemma CreatingKeepsInv(s: State, step: Step)
    requires Inv(s)
    requires step.CreateAux? || step.CreateJob?
    ensures Inv(Checking(s, step))
  {
    if step.CreateAux? {
      AuxKeepsInv(s, step);
    }
  }

  lemma InspectingKeepsInv(s: State, step: Step)
    requires Inv(s) && step.InspectJob?
    ensures Inv(Checking(s, step))
  {
  }

  lemma CheckingKeepsInv(s: State, step: Step)
    requires Inv(s)
    ensures Inv(Checking(s, step))
  {
    if step.CreateAux? || step.CreateJob? {
      CreatingKeepsInv(s, step);
    } else if step.InspectJob? {
      InspectingKeepsInv(s, step);
    }
  }

  lemma ClearingKeepsInv(s: State, step: Step)
    requires Inv(s) && step.ClearResources?
    ensures Inv(Reporting(s, step))
  {
  }

  lemma ReportingKeepsInv(s: State, step: Step)
    requires Inv(s)
    ensures Inv(Reporting(s, step))
  {
    if step.ClearResources? {
      ClearingKeepsInv(s, step);
    }
  }

  lemma ListingKeepsInv(s: State, step: Step)
    requires Inv(s) && step.ListSecrets?
    ensures Inv(Distributing(s, step))
  {
  }

  /** A patched secret carries the annotated digest and is off the list. */
  lemma PatchedKeepsInv(s: State, k: SecretKey, done: bool)
    requires Inv(s) && s.ctl.Run? && s.ctl.pc.Patch? && k in s.ctl.pc.todo && k in s.secrets
    ensures var t := s.(secrets := s.secrets[k := s.ctl.Own()]);
      Inv(if done then Goto(t, Patch(s.ctl.pc.todo - {k})) else t.(ctl := Idle))
  {
  }

  lemma PatchingKeepsInv(s: State, step: Step)
    requires Inv(s) && step.PatchSecret?
    ensures Inv(Distributing(s, step))
  {
    if s.ctl.Run? && s.ctl.pc.Patch? && step.key in s.ctl.pc.todo && step.key in s.secrets {
      PatchedKeepsInv(s, step.key, step.outcome.Applied?);
    }
  }

  lemma FlagKeepsInv(s: State, step: Step)
    requires Inv(s) && step.WriteFlag?
    ensures Inv(Distributing(s, step))
  {
  }

  lemma DistributingKeepsInv(s: State, step: Step)
    requires Inv(s)
    ensures Inv(Distributing(s, step))
  {
    if step.PatchSecret? {
      PatchingKeepsInv(s, step);
    } else if step.ListSecrets? {
      ListingKeepsInv(s, step);
    } else if step.WriteFlag? {
      FlagKeepsInv(s, step);
    }
  }

  lemma NextKeepsInv(s: State, step: Step)
    requires Inv(s)
    ensures Inv(Next(s, step))
  {
    if step.EditConfig? || step.JobSucceeds? || step.JobFails? || step.JobVanishes?
       || step.PvcVanishes? || step.SecretVanishes? || step.Crash? {
      EnvironmentKeepsInv(s, step);
    } else {
      OpeningKeepsInv(s, step);
      CheckingKeepsInv(s, step);
      ReportingKeepsInv(s, step);
      DistributingKeepsInv(s, step);
    }
  }

  lemma {:induction false} ExecKeepsInv(s: State, steps: seq<Step>)
    requires Initial(s)
    ensures Inv(Exec(s, steps))
  {
    if steps != [] {
      ExecKeepsInv(s, steps[..|steps| - 1]);
      NextKeepsInv(Exec(s, steps[..|steps| - 1]), steps[|steps| - 1]);
    }
  }

  // -------------------------------------------------------- main results

  /** Crash safety: in every interleaving, a stored PreCheckPassed=True is backed by a
      completed job that carries exactly the annotated digest. */
  lemma PreCheckCrashSafety(s: State, steps: seq<Step>)
    requires Initial(s)
    ensures PreCheckSound(Exec(s, steps))
  {
    ExecKeepsInv(s, steps);
  }

  /** And a stored PreCheckPassed=False by a job with that digest that failed or timed out. */
  lemma PreCheckFailureSafety(s: State, steps: seq<Step>)
    requires Initial(s)
    ensures FailureSound(Exec(s, steps))
  {
    ExecKeepsInv(s, steps);
  }

  /** Tool-config agreement in every reachable state, crashes inside the patch loop included. */
  lemma ToolConfigAgreement(s: State, steps: seq<Step>)
    requires Initial(s)
    ensures ToolConfigAgrees(Exec(s, steps))
  {
    ExecKeepsInv(s, steps);
  }

  /** Whether step writes a phase to the server in state s. */
  predicate WritesPhase(s: State, step: Step) {
    && step.WriteStatus? && step.outcome.Stored()
    && s.ctl.Run? && (s.ctl.pc.ErrStatus? || s.ctl.pc.Status?)
  }

  lemma OnlyStatusWritesPhase(s: State, step: Step)
    ensures !WritesPhase(s, step) ==> Next(s, step).repo.phase == s.repo.phase
  {
  }

  /** Whenever Ready is written, the annotated digest has passed. The stored condition is then
      True, except after an error of preCheckRepo whose deferred condition update was refused.
      And the annotated digest is the writer's own, except after an error of a basic check, when
      it never comes to comparing the two. */
  lemma ReadyIsEarned(s: State, steps: seq<Step>, step: Step)
    requires Initial(s)
    requires WritesPhase(Exec(s, steps), step)
    requires Next(Exec(s, steps), step).repo.phase.Ready?
    ensures var t := Exec(s, steps);
      && t.ctl.mem.cond.CondTrue?
      && t.repo.annot in t.passed
      && (t.repo.cond.CondTrue? <==> t.ctl.pc != ErrStatus(InPreCheck(true)))
      && (t.ctl.pc != ErrStatus(InBasics) ==> t.ctl.digest == Some(t.repo.annot))
  {
    ExecKeepsInv(s, steps);
    ReadyIsEarnedHere(Exec(s, steps), step);
  }

  lemma ReadyIsEarnedHere(t: State, step: Step)
    requires Inv(t) && WritesPhase(t, step) && Next(t, step).repo.phase.Ready?
    ensures t.ctl.mem.cond.CondTrue? && t.repo.annot in t.passed
    ensures t.repo.cond.CondTrue? <==> t.ctl.pc != ErrStatus(InPreCheck(true))
    ensures t.ctl.pc != ErrStatus(InBasics) ==> t.ctl.digest == Some(t.repo.annot)
  {
    assert AtPc(t);
  }

  lemma PhaseIsWritten(t: State, write: Outcome)
    requires t.ctl.Run? && t.ctl.pc.ErrStatus? && write.Stored()
    ensures var u := Next(t, WriteStatus(write));
      u.repo == t.repo.(phase := PhaseFor(t.ctl.mem)) && u.config == t.config
  {
  }

  /** The check passes and is the last one missing, and the pre-check condition is still True
      from before. */
  predicate WouldBeReady(s: State, passes: bool)
    requires s.ctl.Run? && s.ctl.pc.Check?
  {
    passes && s.repo.basics.With(s.ctl.pc.basic, true) == ALL_BASICS && s.repo.cond.CondTrue?
  }

  /** When an error of a basic check other than the one on StorageClassCreated, whose condition is
      taken back, is followed by a stored Ready; and when by Ready for another configuration than
      the annotated one: exactly when, in addition, it has been edited since. */
  lemma BasicErrorStoresReadyIff(s: State, step: Step, write: Outcome)
    requires Inv(s) && s.ctl.Run? && s.ctl.pc.Check? && step.CheckBasic? && write.Stored()
    requires Next(s, step).ctl.pc == ErrStatus(InBasics)
    ensures var t := Next(Next(s, step), WriteStatus(write));
      && (t.repo.phase.Ready? <==> WouldBeReady(s, step.passes))
      && (t.repo.phase.Ready? && t.repo.annot != t.config <==>
            WouldBeReady(s, step.passes) && s.repo.annot != s.config)
  {
    CheckedIs(s, s.ctl.pc.basic, step.passes, step.rewrite, step.outcome);
    BasicErrorResult(s, Next(s, step), step.passes, write);
  }

  lemma BasicErrorResult(s: State, t: State, passes: bool, write: Outcome)
    requires s.ctl.Run? && s.ctl.pc.Check? && InSync(s)
    requires AfterCheck(s, t, s.ctl.pc.basic, passes) && t.ctl.pc == ErrStatus(InBasics) && write.Stored()
    ensures var u := Next(t, WriteStatus(write));
      (u.repo.phase.Ready? <==> WouldBeReady(s, passes)) && u.repo.annot == s.repo.annot && u.config == s.config
  {
    PhaseIsWritten(t, write);
  }

  lemma ExecSnoc(s: State, steps: seq<Step>, step: Step)
    ensures Exec(s, steps + [step]) == Next(Exec(s, steps), step)
  {
    assert (steps + [step])[..|steps|] == steps;
  }

  lemma {:induction false} ExecConcat(s: State, a: seq<Step>, b: seq<Step>)
    ensures Exec(s, a + b) == Exec(Exec(s, a), b)
  {
    if b == [] {
      assert a + b == a;
    } else {
      var front := b[..|b| - 1];
      ExecConcat(s, a, front);
      assert a + b == (a + front) + [b[|b| - 1]];
      ExecSnoc(s, a + front, b[|b| - 1]);
    }
  }

  /** Steps of the controller, and the success of a pre-check job: nobody edits the
      configuration, nothing crashes, fails or vanishes by itself. */
  predicate Cooperative(step: Step) {
    !(step.EditConfig? || step.JobFails? || step.JobVanishes? || step.PvcVanishes?
      || step.SecretVanishes? || step.Crash?)
  }

  ghost predicate AllCooperative(steps: seq<Step>) {
    forall i :: 0 <= i < |steps| ==> Cooperative(steps[i])
  }

  /** t is reached from s by cooperative steps. */
  ghost predicate Reaches(s: State, t: State) {
    exists steps :: AllCooperative(steps) && Exec(s, steps) == t
  }

  lemma ReachesStep(s: State, t: State, step: Step)
    requires Reaches(s, t) && Cooperative(step)
    ensures Reaches(s, Next(t, step))
  {
    var steps :| AllCooperative(steps) && Exec(s, steps) == t;
    ExecSnoc(s, steps, step);
    assert AllCooperative(steps + [step]);
  }

  lemma ReachesTrans(s: State, t: State, u: State)
    requires Reaches(s, t) && Reaches(t, u)
    ensures Reaches(s, u)
  {
    var a :| AllCooperative(a) && Exec(s, a) == t;
    var b :| AllCooperative(b) && Exec(t, b) == u;
    ExecConcat(s, a, b);
    assert AllCooperative(a + b);
  }

  lemma ReachesSelf(s: State)
    ensures Reaches(s, s)
  {
    assert AllCooperative([]) && Exec(s, []) == s;
  }

  /** A check that passes, with its condition stored if it changes. */
  lemma ReachesNextCheck(s: State, t: State)
    requires Reaches(s, t) && t.ctl.Run? && t.ctl.pc.Check? && t.ctl.mem == t.repo
    ensures var b := t.ctl.pc.basic; var r := t.repo.(basics := t.repo.basics.With(b, true));
      Reaches(s, t.(repo := r, ctl := Run(AfterBasic(b), if b.ParametersChecked? then Some(t.config) else t.ctl.digest, r)))
  {
    ReachesStep(s, t, CheckBasic(true, false, Applied));
  }

  /** The repo after the basic checks have passed. */
  function Based(r: Repo): Repo {
    r.(basics := ALL_BASICS)
  }

  lemma ReachesCompare(s: State)
    requires s.ctl.Idle?
    ensures Reaches(s, s.(repo := Based(s.repo), ctl := Run(Compare, Some(s.config), Based(s.repo))))
  {
    ReachesSelf(s);
    ReachesStep(s, s, Begin);
    var r0 := s.repo;
    var r1 := r0.(basics := r0.basics.With(ProviderReady, true));
    var r2 := r1.(basics := r1.basics.With(ParametersChecked, true));
    var r3 := r2.(basics := r2.basics.With(StorageClassCreated, true));
    ReachesNextCheck(s, s.(ctl := Run(Check(ProviderReady), None, r0)));
    ReachesNextCheck(s, s.(repo := r1, ctl := Run(Check(ParametersChecked), None, r1)));
    ReachesNextCheck(s, s.(repo := r2, ctl := Run(Check(StorageClassCreated), Some(s.config), r2)));
    ReachesNextCheck(s, s.(repo := r3, ctl := Run(Check(PvcTemplateChecked), Some(s.config), r3)));
  }

  /** A reconcile that starts in s, right after the digest comparison and any rewrite of
      condition and annotations. */
  function Opened(s: State): State {
    var b := Based(s.repo);
    var r := if b.annot == s.config then b else b.(cond := CondUnknown, annot := s.config, flag := "true");
    s.(repo := r, ctl := Run(Gate, Some(s.config), r))
  }

  lemma ReachesOpened(s: State)
    requires s.ctl.Idle?
    ensures Reaches(s, Opened(s))
  {
    var b := Based(s.repo);
    var t := s.(repo := b, ctl := Run(Compare, Some(s.config), b));
    ReachesCompare(s);
    if b.annot == s.config {
      ReachesStep(s, t, CompareDigest(Applied));
    } else {
      var r := b.(cond := CondUnknown);
      var u := s.(repo := r, ctl := Run(Annotate, Some(s.config), r));
      assert Reaches(s, u) by {
        ReachesStep(s, t, CompareDigest(Applied));
      }
      ReachesStep(s, u, WriteAnnotations(Applied));
    }
  }

  function WithAux(s: State, d: Digest): State {
    if AuxDigest(s).None? then PutAux(s, d) else s
  }

  function WithJob(s: State, d: Digest): (t: State)
    ensures t.job.Some?
  {
    if s.job.None? then s.(job := Some(Job(d, JobRunning))) else s
  }

  /** A reconcile of an unfinished pre-check that has found or created its objects and is about
      to inspect the job. */
  function Inspecting(s: State): State {
    var o := WithJob(WithAux(Opened(s), s.config), s.config);
    o.(ctl := Run(Verify(if AuxDigest(s).None? then s.config else AuxDigest(s).value, o.job.value),
                  Some(s.config), o.repo))
  }

  lemma ReachesEnsureJob(s: State, o: State)
    requires Reaches(s, o) && o.ctl.Run? && o.ctl.pc.Gate? && !Finished(o.ctl.mem.cond)
    ensures var a := if AuxDigest(o).None? then o.ctl.Own() else AuxDigest(o).value;
      Reaches(s, Goto(WithAux(o, o.ctl.Own()), EnsureJob(a)))
  {
    ReachesStep(s, o, CheckFinished);
    ReachesStep(s, Goto(o, EnsureAux), CreateAux(Applied));
  }

  lemma ReachesInspecting(s: State)
    requires s.ctl.Idle?
    requires s.repo.annot == s.config ==> !Finished(s.repo.cond)
    ensures Reaches(s, Inspecting(s))
  {
    var o := Opened(s);
    var a := if AuxDigest(s).None? then s.config else AuxDigest(s).value;
    var j := Goto(WithAux(o, s.config), EnsureJob(a));
    assert Reaches(s, j) by {
      ReachesOpened(s);
      ReachesEnsureJob(s, o);
    }
    ReachesStep(s, j, CreateJob(Applied));
  }

  /** The writes of a reconcile that returns for a requeue: the condition, then the phase. */
  lemma ReachesRequeued(s: State)
    requires s.ctl.Run? && s.ctl.pc == Defer(CondUnknown, true) && s.ctl.mem == s.repo
    requires s.repo.basics == ALL_BASICS
    ensures Reaches(s, s.(repo := s.repo.(cond := CondUnknown, phase := PreChecking), ctl := Idle))
  {
    var r := s.repo.(cond := CondUnknown);
    var e := s.(repo := r, ctl := Run(ErrStatus(InPreCheck(false)), s.ctl.digest, r));
    assert Reaches(s, e) by {
      ReachesSelf(s);
      ReachesStep(s, s, WriteCondition(Applied));
    }
    ReachesStep(s, e, WriteStatus(Applied));
  }

  /** Idle again after such a reconcile; objects of another configuration have been removed. */
  function Waited(s: State): State {
    var i := Inspecting(s);
    var t := if IsStale(s.config, i.ctl.pc.aux, i.job.value) then Cleared(i) else i;
    t.(repo := i.repo.(cond := CondUnknown, phase := PreChecking), ctl := Idle)
  }

  lemma ReachesWaited(s: State)
    requires s.ctl.Idle?
    requires s.repo.annot == s.config ==> !Finished(s.repo.cond)
    requires var i := Inspecting(s);
      IsStale(s.config, i.ctl.pc.aux, i.job.value) || i.job.value.state.JobRunning?
    ensures Reaches(s, Waited(s))
  {
    var i := Inspecting(s);
    var t := if IsStale(s.config, i.ctl.pc.aux, i.job.value) then Cleared(i) else i;
    var d := t.(ctl := Run(Defer(CondUnknown, true), Some(s.config), i.repo));
    assert Reaches(s, d) by {
      ReachesInspecting(s);
      ReachesStep(s, i, InspectJob(true, false, false));
    }
    ReachesRequeued(d);
    ReachesTrans(s, d, Waited(s));
  }

  /** Pre-check objects of the current configuration are there, and the job has succeeded. */
  predicate Passed(s: State) {
    s.ctl.Idle? && s.repo.annot == s.config && !Finished(s.repo.cond) &&
    AuxDigest(s) == Some(s.config) && s.job == Some(Job(s.config, JobSucceeded))
  }

  /** What reconciles for one configuration leave alone: the kind of access, the configuration, and
      the request to redistribute the secrets that came with the annotation. */
  predicate Follows(s: State, t: State) {
    t.access == s.access && t.config == s.config &&
    t.repo.flag == if s.repo.annot == s.config then s.repo.flag else "true"
  }

  /** A later reconcile finds the completed job and is about to store its verdict. */
  lemma ReachesVerdict(s: State) returns (t: State)
    requires Passed(s)
    ensures Reaches(s, t) && Follows(s, t)
    ensures AtVerdict(t) && t.passed == s.passed
  {
    var i := Inspecting(s);
    ReachesInspecting(s);
    ReachesStep(s, i, InspectJob(true, false, false));
    t := i.(ctl := Run(Defer(CondTrue, false), Some(s.config), i.repo));
  }

  /** The last two writes of a successful reconcile: the condition, then the phase. */
  lemma ReachesReady(s: State, outcome: Outcome) returns (t: State)
    requires s.ctl == Run(Defer(CondTrue, false), Some(s.config), s.repo) && s.repo.basics == ALL_BASICS
    requires outcome.Applied? || outcome.Refused?
    ensures Reaches(s, t)
    ensures t.config == s.config && t.passed == s.passed
    ensures t.repo == s.repo.(phase := Ready, cond := if outcome.Applied? then CondTrue else s.repo.cond)
    ensures outcome.Applied? ==> t.ctl == Run(Clear, Some(t.config), t.repo) && t.access == s.access
  {
    var e := Next(s, WriteCondition(outcome));
    assert Reaches(s, e) by {
      ReachesSelf(s);
      ReachesStep(s, s, WriteCondition(outcome));
    }
    ReachesStep(s, e, WriteStatus(Applied));
    t := Next(e, WriteStatus(Applied));
  }

  /** The job that the controller would inspect now failed for the current configuration. */
  predicate HasFailed(s: State) {
    s.job == Some(Job(s.config, JobFailed)) && (AuxDigest(s).None? || AuxDigest(s).value == s.config)
  }

  /** A running job succeeds. */
  lemma ReachesJobDone(s: State) returns (t: State)
    requires s.ctl.Idle? && s.repo.annot == s.config && !Finished(s.repo.cond)
    requires AuxDigest(s) == Some(s.config) && s.job == Some(Job(s.config, JobRunning))
    ensures Reaches(s, t) && Passed(t) && t.config == s.config && t.repo == s.repo && t.access == s.access
    ensures t.passed == s.passed + {s.config}
  {
    ReachesSelf(s);
    ReachesStep(s, s, JobSucceeds);
    t := Next(s, JobSucceeds);
  }

  /** From an empty table a job is launched and succeeds. */
  lemma ReachesPassedFromClean(s: State) returns (t: State)
    requires s.ctl.Idle? && s.job.None? && AuxDigest(s).None?
    requires s.repo.annot == s.config ==> !Finished(s.repo.cond)
    ensures Reaches(s, t) && Passed(t) && Follows(s, t) && t.repo.cond.CondUnknown?
    ensures t.passed == s.passed + {s.config}
  {
    ReachesWaited(s);
    t := ReachesJobDone(Waited(s));
    ReachesTrans(s, Waited(s), t);
  }

  /** A reconcile is about to store that the current configuration has passed. */
  predicate AtVerdict(s: State) {
    s.ctl == Run(Defer(CondTrue, false), Some(s.config), s.repo) && s.repo.annot == s.config &&
    s.repo.basics == ALL_BASICS && !Finished(s.repo.cond)
  }

  /** Some pre-check object belongs to another configuration. */
  predicate WouldReplace(s: State) {
    (s.job.Some? && s.job.value.digest != s.config) || (AuxDigest(s).Some? && AuxDigest(s).value != s.config)
  }

  lemma ReachesReplaced(s: State) returns (t: State)
    requires s.ctl.Idle? && WouldReplace(s)
    requires s.repo.annot == s.config ==> !Finished(s.repo.cond)
    ensures Reaches(s, t) && AtVerdict(t) && Follows(s, t)
  {
    var w := Waited(s);
    ReachesWaited(s);
    var u := ReachesPassedFromClean(w);
    ReachesTrans(s, w, u);
    t := ReachesVerdict(u);
    ReachesTrans(s, u, t);
  }

  /** A job of the current configuration that the controller would look at still runs, or would
      be launched now. */
  predicate WouldRun(s: State) {
    (s.job.None? || s.job.value == Job(s.config, JobRunning)) &&
    (AuxDigest(s).None? || AuxDigest(s).value == s.config)
  }

  lemma ReachesAwaited(s: State) returns (t: State)
    requires s.ctl.Idle? && WouldRun(s)
    requires s.repo.annot == s.config ==> !Finished(s.repo.cond)
    ensures Reaches(s, t) && AtVerdict(t) && Follows(s, t)
  {
    var w := Waited(s);
    ReachesWaited(s);
    var u := ReachesJobDone(w);
    ReachesTrans(s, w, u);
    t := ReachesVerdict(u);
    ReachesTrans(s, u, t);
  }

  /** Objects left over by earlier reconciles are used, or removed and made again, by the
      controller itself. */
  lemma ReachesEarned(s: State) returns (t: State)
    requires s.ctl.Idle? && !HasFailed(s)
    requires s.repo.annot == s.config ==> !Finished(s.repo.cond)
    ensures Reaches(s, t) && AtVerdict(t) && Follows(s, t)
  {
    if WouldReplace(s) {
      t := ReachesReplaced(s);
    } else if WouldRun(s) {
      t := ReachesAwaited(s);
    } else {
      assert s.job.value == Job(s.config, s.job.value.state);
      assert s.job.value.state.JobSucceeded?;
      t := ReachesInspectedVerdict(s);
    }
  }

  lemma ReachesInspectedVerdict(s: State) returns (t: State)
    requires s.ctl.Idle? && s.job == Some(Job(s.config, JobSucceeded))
    requires AuxDigest(s).None? || AuxDigest(s).value == s.config
    requires s.repo.annot == s.config ==> !Finished(s.repo.cond)
    ensures Reaches(s, t) && AtVerdict(t) && Follows(s, t) && t.passed == s.passed
  {
    var i := Inspecting(s);
    t := i.(ctl := Run(Defer(CondTrue, false), Some(s.config), i.repo));
    assert Reaches(s, t) by {
      ReachesInspecting(s);
      ReachesStep(s, i, InspectJob(true, false, false));
    }
  }

  /** The protocol is never stuck: from every idle state, unless the pre-check of the current
      configuration has failed, the controller reaches Ready for that configuration, given only
      that its job succeeds. */
  lemma ReadyIsReachable(s: State) returns (t: State)
    requires s.ctl.Idle?
    requires if s.repo.annot == s.config && Finished(s.repo.cond) then s.repo.cond.CondTrue? else !HasFailed(s)
    ensures Reaches(s, t) && Follows(s, t)
    ensures t.repo.annot == s.config && t.repo.phase.Ready? && t.repo.cond.CondTrue?
    ensures t.ctl == Run(Clear, Some(t.config), t.repo) && t.repo.basics == ALL_BASICS
  {
    if s.repo.annot == s.config && s.repo.cond.CondTrue? {
      var o := Opened(s);
      assert Reaches(s, Goto(o, Status)) by {
        ReachesOpened(s);
        ReachesStep(s, o, CheckFinished);
      }
      ReachesStep(s, Goto(o, Status), WriteStatus(Applied));
      t := Next(Goto(o, Status), WriteStatus(Applied));
    } else {
      var d := ReachesEarned(s);
      t := ReachesReady(d, Applied);
      ReachesTrans(s, d, t);
    }
  }

  /** The writes of a reconcile whose pre-check has failed, however its logs are read. */
  lemma ReachesFailed(s: State) returns (t: State)
    requires s.ctl.Run? && s.ctl.pc.Defer? && s.ctl.pc.status.CondFalse? && s.ctl.mem == s.repo
    ensures Reaches(s, t) && t.config == s.config && t.failed == s.failed
    ensures t.repo == s.repo.(cond := CondFalse, phase := Failed)
  {
    var e := Next(s, WriteCondition(Applied));
    assert Reaches(s, e) by {
      ReachesSelf(s);
      ReachesStep(s, s, WriteCondition(Applied));
    }
    ReachesStep(s, e, WriteStatus(Applied));
    t := Next(e, WriteStatus(Applied));
  }

  /** Nor does it lose a failure: from every idle state in which the controller would look at a
      failed job of the current configuration, it stores PreCheckPassed=False and the phase Failed
      for that configuration, whether or not it can fetch the logs. */
  lemma FailureIsReached(s: State, logsFail: bool) returns (t: State)
    requires s.ctl.Idle? && HasFailed(s)
    requires s.repo.annot == s.config ==> !Finished(s.repo.cond)
    ensures Reaches(s, t)
    ensures t.config == s.config && t.repo.annot == s.config
    ensures t.repo.phase.Failed? && t.repo.cond.CondFalse?
  {
    var i := Inspecting(s);
    var d := i.(ctl := Run(Defer(CondFalse, logsFail), Some(s.config), i.repo));
    assert Reaches(s, d) by {
      ReachesInspecting(s);
      ReachesStep(s, i, InspectJob(false, false, logsFail));
    }
    t := ReachesFailed(d);
    ReachesTrans(s, d, t);
  }

  lemma TimeoutStep(i: State, logsFail: bool)
    requires i.ctl == Run(Verify(i.config, Job(i.config, JobRunning)), Some(i.config), i.repo)
    ensures Next(i, InspectJob(false, true, logsFail)) ==
      i.(ctl := Run(Defer(CondFalse, logsFail), Some(i.config), i.repo), failed := i.failed + {i.config})
  {
  }

  /** The same for a running job that exceeds the timeout. */
  lemma TimeoutIsReached(s: State, logsFail: bool) returns (t: State)
    requires s.ctl.Idle? && WouldRun(s)
    requires s.repo.annot == s.config ==> !Finished(s.repo.cond)
    ensures Reaches(s, t)
    ensures t.config == s.config && t.repo.annot == s.config
    ensures t.repo.phase.Failed? && t.repo.cond.CondFalse? && t.failed == s.failed + {s.config}
  {
    var i := Inspecting(s);
    var d := i.(ctl := Run(Defer(CondFalse, logsFail), Some(s.config), i.repo), failed := s.failed + {s.config});
    assert Reaches(s, d) by {
      ReachesInspecting(s);
      TimeoutStep(i, logsFail);
      ReachesStep(s, i, InspectJob(false, true, logsFail));
    }
    t := ReachesFailed(d);
    ReachesTrans(s, d, t);
  }

  /** A running job is waited for, and one is launched where there is none. */
  lemma RunningIsAwaited(s: State) returns (t: State)
    requires s.ctl.Idle? && WouldRun(s)
    requires s.repo.annot == s.config ==> !Finished(s.repo.cond)
    ensures Reaches(s, t) && t.ctl.Idle? && t.config == s.config && t.repo.annot == s.config
    ensures t.repo.cond.CondUnknown? && t.repo.phase.PreChecking?
    ensures t.job == Some(Job(s.config, JobRunning)) && AuxDigest(t) == Some(s.config)
  {
    t := Waited(s);
    ReachesWaited(s);
  }

  /** Objects of another configuration are removed before anything is concluded from them. */
  lemma StaleIsRemoved(s: State) returns (t: State)
    requires s.ctl.Idle? && WouldReplace(s)
    requires s.repo.annot == s.config ==> !Finished(s.repo.cond)
    ensures Reaches(s, t) && t.ctl.Idle? && t.config == s.config && t.repo.annot == s.config
    ensures t.repo.cond.CondUnknown? && t.repo.phase.PreChecking?
    ensures t.job.None? && AuxDigest(t).None?
  {
    t := Waited(s);
    ReachesWaited(s);
  }

  // ------------------------------------------------------ the verdict is kept

  /** The current configuration has been judged, and any running reconcile knows it. */
  predicate Settled(s: State, c: Cond) {
    && Finished(c) && s.repo.cond == c && s.repo.annot == s.config
    && (s.ctl.Run? ==> s.ctl.mem.cond == c && s.ctl.mem.annot == s.config && PastJudging(s))
  }

  predicate PastJudging(s: State)
    requires s.ctl.Run?
  {
    match s.ctl.pc
    case Check(b) => b.ProviderReady? || b.ParametersChecked? || s.ctl.digest == Some(s.config)
    case Undo => true
    case Compare => s.ctl.digest == Some(s.config)
    case Gate => true
    case ErrStatus(origin) => origin.InBasics?
    case Status => true
    case Clear => true
    case Secrets => true
    case Patch(_) => true
    case Flag => true
    case Prepare => true
    case _ => false
  }

  lemma BasicKeepsSettled(s: State, c: Cond, step: Step)
    requires Settled(s, c) && step.CheckBasic?
    ensures Settled(Opening(s, step), c)
  {
  }

  lemma OpeningKeepsSettled(s: State, c: Cond, step: Step)
    requires Settled(s, c)
    ensures Settled(Opening(s, step), c)
  {
    if step.CheckBasic? {
      BasicKeepsSettled(s, c, step);
    }
  }

  lemma CheckingKeepsSettled(s: State, c: Cond, step: Step)
    requires Settled(s, c)
    ensures Settled(Checking(s, step), c)
  {
  }

  lemma ReportingKeepsSettled(s: State, c: Cond, step: Step)
    requires Settled(s, c)
    ensures Settled(Reporting(s, step), c)
  {
  }

  lemma DistributingKeepsSettled(s: State, c: Cond, step: Step)
    requires Settled(s, c)
    ensures Settled(Distributing(s, step), c)
  {
  }

  lemma NextKeepsSettled(s: State, c: Cond, step: Step)
    requires Settled(s, c) && !step.EditConfig?
    ensures Settled(Next(s, step), c)
  {
    OpeningKeepsSettled(s, c, step);
    CheckingKeepsSettled(s, c, step);
    ReportingKeepsSettled(s, c, step);
    DistributingKeepsSettled(s, c, step);
  }

  /** The phases that go with a verdict. */
  predicate FitsVerdict(c: Cond, p: Phase) {
    p.Failed? || (p.Ready? && c.CondTrue?)
  }

  lemma SettledPhase(s: State, c: Cond, step: Step)
    requires Settled(s, c)
    ensures Next(s, step).repo.phase == s.repo.phase || FitsVerdict(c, Next(s, step).repo.phase)
  {
    OnlyStatusWritesPhase(s, step);
  }

  lemma OnlyEditChangesConfig(s: State, step: Step)
    ensures !step.EditConfig? ==> Next(s, step).config == s.config
  {
  }

  /** A verdict is final until the configuration is edited: over every run without an edit, with
      crashes, lost writes and lost objects, the stored condition and digest stay, and after a
      failure the phase never becomes Ready. */
  lemma {:induction false} VerdictIsFinal(s: State, steps: seq<Step>)
    requires s.ctl.Idle? && Finished(s.repo.cond) && s.repo.annot == s.config
    requires forall i :: 0 <= i < |steps| ==> !steps[i].EditConfig?
    ensures Settled(Exec(s, steps), s.repo.cond)
    ensures var t := Exec(s, steps);
      t.config == s.config && (t.repo.phase == s.repo.phase || FitsVerdict(s.repo.cond, t.repo.phase))
  {
    if steps != [] {
      var front, last := steps[..|steps| - 1], steps[|steps| - 1];
      VerdictIsFinal(s, front);
      NextKeepsSettled(Exec(s, front), s.repo.cond, last);
      SettledPhase(Exec(s, front), s.repo.cond, last);
      OnlyEditChangesConfig(Exec(s, front), last);
    }
  }

  // -------------------------------------------------- the secrets are updated

  /** The secrets with those still to do patched. */
  function Patched(secrets: map<SecretKey, Digest>, todo: set<SecretKey>, d: Digest): map<SecretKey, Digest> {
    map k | k in secrets :: if k in todo then d else secrets[k]
  }

  /** The state inside the patch loop. */
  predicate InLoop(s: State) {
    s.ctl.Run? && s.ctl.pc.Patch? && s.ctl.digest == Some(s.config) && s.ctl.mem == s.repo &&
    s.ctl.pc.todo.Keys <= s.secrets.Keys && forall k :: k in s.ctl.pc.todo ==> s.ctl.pc.todo[k] == s.secrets[k]
  }

  lemma PatchOne(s: State, k: SecretKey)
    requires InLoop(s) && k in s.ctl.pc.todo
    ensures var t := Next(s, PatchSecret(k, Applied));
      && t == s.(secrets := s.secrets[k := s.config], ctl := s.ctl.(pc := Patch(s.ctl.pc.todo - {k})))
      && InLoop(t)
      && Patched(t.secrets, t.ctl.pc.todo.Keys, s.config) == Patched(s.secrets, s.ctl.pc.todo.Keys, s.config)
  {
    var t := Next(s, PatchSecret(k, Applied));
    assert s.ctl.pc.todo[k] == s.config ==> s.secrets[k := s.config] == s.secrets;
    assert Patched(t.secrets, t.ctl.pc.todo.Keys, s.config) == Patched(s.secrets, s.ctl.pc.todo.Keys, s.config);
  }

  lemma {:induction false} ReachesPatched(s: State)
    requires InLoop(s)
    ensures Reaches(s, s.(secrets := Patched(s.secrets, s.ctl.pc.todo.Keys, s.config), ctl := s.ctl.(pc := Patch(map[]))))
    decreases |s.ctl.pc.todo|
  {
    ReachesSelf(s);
    if s.ctl.pc.todo == map[] {
      assert Patched(s.secrets, {}, s.config) == s.secrets;
    } else {
      var k :| k in s.ctl.pc.todo;
      var t := Next(s, PatchSecret(k, Applied));
      PatchOne(s, k);
      ReachesStep(s, s, PatchSecret(k, Applied));
      assert t.ctl.pc.todo.Keys == s.ctl.pc.todo.Keys - {k};
      ReachesPatched(t);
      ReachesTrans(s, t, t.(secrets := Patched(t.secrets, t.ctl.pc.todo.Keys, t.config), ctl := t.ctl.(pc := Patch(map[]))));
    }
  }

  lemma LastSteps(s: State)
    requires s.ctl.Run? && s.ctl.mem == s.repo
    ensures s.ctl.pc == Patch(map[]) ==> Next(s, PatchDone) == s.(ctl := Run(Flag, s.ctl.digest, s.repo))
    ensures var r := s.repo.(flag := "false");
      s.ctl.pc.Flag? ==> Next(s, WriteFlag(Applied)) == s.(repo := r, ctl := Run(Prepare, s.ctl.digest, r))
    ensures s.ctl.pc.Prepare? ==> Next(s, Finish) == s.(ctl := Idle)
  {
  }

  /** The last steps of a reconcile by tool: the loop is over, the flag is taken down. */
  lemma ReachesFlagDown(s: State)
    requires s.ctl.Run? && s.ctl.pc == Patch(map[]) && s.ctl.mem == s.repo
    ensures Reaches(s, s.(repo := s.repo.(flag := "false"), ctl := Idle))
  {
    var r := s.repo.(flag := "false");
    var p := s.(repo := r, ctl := Run(Prepare, s.ctl.digest, r));
    var f := s.(ctl := Run(Flag, s.ctl.digest, s.repo));
    assert Reaches(s, f) by {
      ReachesSelf(s);
      LastSteps(s);
      ReachesStep(s, s, PatchDone);
    }
    assert Reaches(s, p) by {
      LastSteps(f);
      ReachesStep(s, f, WriteFlag(Applied));
    }
    LastSteps(p);
    ReachesStep(s, p, Finish);
  }

  lemma ReachesLoop(s: State)
    requires s.ctl == Run(Clear, Some(s.config), s.repo) && s.access.Tool?
    requires s.repo.phase.Ready? && Finished(s.repo.cond) && s.repo.flag == "true"
    ensures var c := Cleared(s);
      Reaches(s, c.(ctl := s.ctl.(pc := Patch(c.secrets))))
  {
    var c := Goto(Cleared(s), Secrets);
    ReachesSelf(s);
    ReachesStep(s, s, ClearResources(false));
    ReachesStep(s, c, ListSecrets);
  }

  /** A reconcile that has stored Ready and finds the flag up goes on to remove the pre-check
      objects, to bring every other secret to the annotated digest and only then to take the flag
      down. */
  lemma SecretsAreUpdated(s: State) returns (t: State)
    requires s.ctl == Run(Clear, Some(s.config), s.repo) && s.access.Tool?
    requires s.repo.phase.Ready? && Finished(s.repo.cond) && s.repo.flag == "true"
    ensures Reaches(s, t) && t.ctl.Idle?
    ensures t.config == s.config && t.repo == s.repo.(flag := "false")
    ensures t.job.None? && t.pvc.None?
    ensures t.secrets.Keys == s.secrets.Keys - {PreCheckSecret} && AllAt(t.secrets, s.config)
  {
    var c := Cleared(s);
    var l := c.(ctl := s.ctl.(pc := Patch(c.secrets)));
    ReachesLoop(s);
    ReachesPatched(l);
    var p := l.(secrets := Patched(l.secrets, l.ctl.pc.todo.Keys, l.config), ctl := l.ctl.(pc := Patch(map[])));
    ReachesTrans(s, l, p);
    ReachesFlagDown(p);
    t := p.(repo := p.repo.(flag := "false"), ctl := Idle);
    ReachesTrans(s, p, t);
  }

  /** So an edit goes all the way: from every idle state of a repo accessed by tool whose
      configuration is not the annotated one, unless a job has failed for it, the controller reaches
      Ready, with every secret at the new digest and the flag down. */
  lemma EditReachesSecrets(s: State) returns (t: State)
    requires s.ctl.Idle? && s.access.Tool? && s.repo.annot != s.config && !HasFailed(s)
    ensures Reaches(s, t) && t.ctl.Idle? && t.config == s.config
    ensures t.repo == Repo(ALL_BASICS, CondTrue, s.config, "false", Ready)
    ensures AllAt(t.secrets, s.config)
  {
    var r := ReadyIsReachable(s);
    t := SecretsAreUpdated(r);
    ReachesTrans(s, r, t);
  }

  /** Ready can be stored while the stored condition is not True: the deferred condition
      update is refused, and the status patch of the error path then goes through. */
  lemma ReadyWithoutStoredCondition(s: State) returns (t: State)
    requires Initial(s)
    ensures Reaches(s, t)
    ensures t.repo.phase.Ready? && !t.repo.cond.CondTrue?
  {
    var d := ReachesEarned(s);
    t := ReachesReady(d, Refused);
    ReachesTrans(s, d, t);
  }

  /** Ready for the first configuration, with the storage provider gone bad after that. */
  lemma ReachesProviderLost(s: State) returns (t: State)
    requires Initial(s)
    ensures Reaches(s, t) && t.ctl.Idle? && t.config == s.config && t.passed == {s.config}
    ensures t.repo.cond.CondTrue? && t.repo.annot == s.config && t.repo.basics == Basics(false, true, true, true)
    ensures t.repo.phase.Failed?
  {
    var p := ReachesPassedFromClean(s);
    var v := ReachesVerdict(p);
    ReachesTrans(s, p, v);
    var r := ReachesReady(v, Applied);
    ReachesTrans(s, v, r);
    t := ReachesProviderFailed(r);
    ReachesTrans(s, r, t);
  }

  /** After its status has been stored a reconcile may stop with an error, and the next one may
      find the provider gone. */
  lemma ReachesProviderFailed(s: State) returns (t: State)
    requires s.ctl.Run? && s.ctl.pc.Clear? && s.repo.basics == ALL_BASICS
    ensures Reaches(s, t) && t.ctl.Idle? && t.config == s.config && t.passed == s.passed
    ensures t.repo == s.repo.(basics := Basics(false, true, true, true), phase := Failed)
  {
    ReachesSelf(s);
    ReachesStep(s, s, ClearResources(true));
    var i := s.(ctl := Idle);
    ReachesStep(s, i, Begin);
    var b := i.(ctl := Run(Check(ProviderReady), None, i.repo));
    ReachesStep(s, b, CheckBasic(false, false, Applied));
    var r := i.repo.(basics := Basics(false, true, true, true));
    var e := i.(repo := r, ctl := Run(ErrStatus(InBasics), None, r));
    ReachesStep(s, e, WriteStatus(Applied));
    t := Next(e, WriteStatus(Applied));
  }

  /** Ready can be written for a configuration that was never checked. After a first configuration
      the provider has gone bad and the phase is Failed; the configuration is edited, the provider
      recovers, and the write of its condition is refused; the status is then computed from
      conditions that belong to the configuration before. */
  lemma ReadyForUncheckedConfig(s: State, edited: Digest) returns (u: State, t: State)
    requires Initial(s) && edited != s.config
    ensures Reaches(s, u) && u.repo.phase.Failed? && Reaches(Next(u, EditConfig(edited)), t)
    ensures t.repo.phase.Ready? && t.config == edited && t.repo.annot == s.config && edited !in t.passed
  {
    u := ReachesProviderLost(s);
    var e := Next(u, EditConfig(edited));
    ReachesSelf(e);
    ReachesStep(e, e, Begin);
    var b := e.(ctl := Run(Check(ProviderReady), None, e.repo));
    ReachesStep(e, b, CheckBasic(true, false, Refused));
    var w := e.(ctl := Run(ErrStatus(InBasics), None, e.repo.(basics := ALL_BASICS)));
    ReachesStep(e, w, WriteStatus(Applied));
    t := Next(w, WriteStatus(Applied));
  }
}
