/**
 What an add or a remove request does, as a function of how the handlers turn out: the handlers
 visited, the status returned, and what the response object says at the end.
 */
module Requests {
  import opened Sequences
  import opened Wrappers
  import opened HandlerTables

  const GENERIC_ADD := "Unable to install package. Please go to aka.ms/msix for more information."
  const GENERIC_REMOVE := "Failed to process add request"

  datatype InstallationStep = Unknown | Started | Extraction | Completed | Error

  datatype Notice = Notice(step: InstallationStep, percentage: real, code: HResult)

  /** The fields of a response, and what the callback has been told. */
  datatype Report = Report(percentage: real, step: InstallationStep, code: HResult, text: string,
                           listening: bool, told: seq<Notice>)

  function Tell(r: Report): Report {
    if r.listening then r.(told := r.told + [Notice(r.step, r.percentage, r.code)]) else r
  }

  function AfterUpdate(r: Report, step: InstallationStep, progress: real): Report {
    if r.percentage == progress && r.step == step then r else Tell(r.(percentage := progress, step := step))
  }

  function AfterError(r: Report, errorCode: HResult, errorText: string): Report {
    if Failed(r.code) then r
    else Tell(r.(percentage := 0.0, step := Error, code := errorCode, text := errorText))
  }

  function AfterUpdates(r: Report, progress: seq<real>): Report {
    if progress == [] then r
    else AfterUpdate(AfterUpdates(r, progress[..|progress| - 1]), Extraction, progress[|progress| - 1])
  }

  /**
   How everything outside the request turns out. A handler can also put its failure on the response
   itself, with a text of its own; `words` says so.
   */
  datatype Machine = Machine(
    create: Handler -> HResult,
    execute: Handler -> HResult,
    words: Handler -> Option<string>,
    createForRemove: Handler -> HResult,
    executeForRemove: Handler -> HResult,
    wordsForRemove: Handler -> Option<string>,
    make: HResult,
    progress: seq<real>,
    cancelled: bool,
    firstPercentage: real,
    packageName: string,
    installedName: string)

  /** What creating and executing a handler comes to. */
  function Tried(m: Machine, h: Handler): HResult {
    if Failed(m.create(h)) then m.create(h) else m.execute(h)
  }

  function TriedRemove(m: Machine, h: Handler): HResult {
    if Failed(m.createForRemove(h)) then m.createForRemove(h) else m.executeForRemove(h)
  }

  // Remove requests.

  function RecordedInRemove(m: Machine, h: Handler, r: Report): Report {
    if Failed(TriedRemove(m, h)) && m.wordsForRemove(h).Some?
    then AfterError(r, TriedRemove(m, h), m.wordsForRemove(h).value)
    else r
  }

  datatype Run = Run(visits: seq<Handler>, result: HResult, report: Report)

  function Then(h: Handler, run: Run): Run {
    run.(visits := [h] + run.visits)
  }

  function RemoveRun(m: Machine, h: Handler, r: Report): Run
    requires RemoveHandlers(h).Some?
    decreases RemoveRank(h), r
  {
    RemoveRankFalls(h);
    var info := RemoveHandlers(h).value;
    var hr := TriedRemove(m, h);
    var r1 := RecordedInRemove(m, h, r);
    if Failed(hr) && info.errorMode == ReturnError then Run([h], hr, AfterError(r1, hr, GENERIC_REMOVE))
    else if info.nextHandler.None? then Run([h], S_OK, r1)
    else Then(h, RemoveRun(m, info.nextHandler.value, r1))
  }

  /** The order of removal. */
  const REMOVAL := [
    PopulatePackageInfo, StartMenuLink, AddRemovePrograms, PrepareDevirtualizedRegistry, Protocol, ComInterface,
    ComServer, StartupTask, FileTypeAssociation, FirewallRules, AutoPlay, AppExecutionAlias, VirtualFileHandler,
    WriteDevirtualizedRegistry, Extractor]

  /** These handlers follow one another in the table, failures ignored after the first. */
  predicate InRemoveOrder(order: seq<Handler>) {
    forall i :: 0 <= i < |order| ==> RemovePlaced(order, i)
  }

  predicate RemovePlaced(order: seq<Handler>, i: nat)
    requires i < |order|
  {
    RemoveHandlers(order[i])
    == Some(HandlerInfo(if i + 1 < |order| then Some(order[i + 1]) else None,
                        if i == 0 then ReturnError else IgnoreAndProcessNextHandler, None))
  }

  lemma RemovalInOrder()
    ensures InRemoveOrder(REMOVAL)
  {
    forall i | 0 <= i < |REMOVAL| ensures RemovePlaced(REMOVAL, i) {
      RemovalPlaced(i);
    }
  }

  lemma RemovalPlaced(i: nat)
    requires i < |REMOVAL|
    ensures RemovePlaced(REMOVAL, i)
  {
  }

  lemma RemoveStep(m: Machine, order: seq<Handler>, i: nat, r: Report)
    requires 0 < i < |order| && RemovePlaced(order, i) && (i + 1 < |order| ==> RemovePlaced(order, i + 1))
    ensures RemoveRun(m, order[i], r)
            == if i + 1 < |order| then Then(order[i], RemoveRun(m, order[i + 1], RecordedInRemove(m, order[i], r)))
               else Run([order[i]], S_OK, RecordedInRemove(m, order[i], r))
  {
  }

  /** After the first handler the whole rest is visited, whatever fails. */
  lemma {:induction false} RemoveRunFrom(m: Machine, order: seq<Handler>, i: nat, r: Report)
    requires 0 < i < |order| && InRemoveOrder(order)
    ensures RemoveHandlers(order[i]).Some?
    ensures RemoveRun(m, order[i], r).visits == order[i..] && RemoveRun(m, order[i], r).result == S_OK
    decreases |order| - i
  {
    assert RemovePlaced(order, i) && (i + 1 < |order| ==> RemovePlaced(order, i + 1));
    RemoveStep(m, order, i, r);
    FirstOf(order, i, |order|);
    if i + 1 < |order| {
      RemoveRunFrom(m, order, i + 1, RecordedInRemove(m, order[i], r));
    }
  }

  lemma FirstOf(order: seq<Handler>, i: nat, k: nat)
    requires i < k <= |order|
    ensures [order[i]] + order[i + 1..k] == order[i..k]
    ensures order[..|order|] == order && order[i..|order|] == order[i..] && order[i + 1..|order|] == order[i + 1..]
  {
  }

  /** Every handler with undo work has a place in the order of removal. */
  lemma UndoIsInRemoval(h: Handler)
    requires HasUndo(h)
    ensures h in REMOVAL
  {
    assert REMOVAL[1] == StartMenuLink && REMOVAL[2] == AddRemovePrograms && REMOVAL[4] == Protocol;
    assert REMOVAL[3] == PrepareDevirtualizedRegistry && REMOVAL[5] == ComInterface && REMOVAL[6] == ComServer;
    assert REMOVAL[7] == StartupTask && REMOVAL[8] == FileTypeAssociation && REMOVAL[9] == FirewallRules;
    assert REMOVAL[10] == AutoPlay && REMOVAL[11] == AppExecutionAlias && REMOVAL[12] == VirtualFileHandler;
    assert REMOVAL[13] == WriteDevirtualizedRegistry && REMOVAL[14] == Extractor;
  }

  lemma FirstRemoveStep(m: Machine, order: seq<Handler>, r: Report)
    requires |order| > 1 && RemovePlaced(order, 0) && RemovePlaced(order, 1)
    ensures var h := order[0];
            RemoveRun(m, h, r)
            == if Failed(TriedRemove(m, h))
               then Run([h], TriedRemove(m, h), AfterError(RecordedInRemove(m, h, r), TriedRemove(m, h), GENERIC_REMOVE))
               else Then(h, RemoveRun(m, order[1], RecordedInRemove(m, h, r)))
  {
  }

  lemma RemoveRunOf(m: Machine, order: seq<Handler>, r: Report)
    requires |order| > 1 && InRemoveOrder(order)
    ensures RemovePlaced(order, 0)
    ensures var run, hr := RemoveRun(m, order[0], r), TriedRemove(m, order[0]);
            && run.visits == (if Failed(hr) then [order[0]] else order)
            && run.result == if Failed(hr) then hr else S_OK
  {
    assert RemovePlaced(order, 0) && RemovePlaced(order, 1);
    FirstRemoveStep(m, order, r);
    RemoveRunFrom(m, order, 1, RecordedInRemove(m, order[0], r));
    FirstOf(order, 0, |order|);
  }

  /**
   Once the package information is there, a remove request visits every handler with undo work, in
   a fixed order, and succeeds, whatever the handlers return; without it, it visits no other handler
   and fails.
   */
  lemma RemoveVisitsAll(m: Machine, r: Report)
    ensures var run, hr := RemoveRun(m, PopulatePackageInfo, r), TriedRemove(m, PopulatePackageInfo);
            && run.visits == (if Failed(hr) then [PopulatePackageInfo] else REMOVAL)
            && run.result == (if Failed(hr) then hr else S_OK)
    ensures forall h :: HasUndo(h) ==> h in REMOVAL
  {
    RemovalInOrder();
    RemoveRunOf(m, REMOVAL, r);
    forall h | HasUndo(h) ensures h in REMOVAL {
      UndoIsInRemoval(h);
    }
  }

  /**
   A remove request that returns success can leave an error on its response: it does exactly when a
   handler it visited put one there.
   */
  lemma {:induction false} IgnoredButRecorded(m: Machine, h: Handler, r: Report)
    requires RemoveHandlers(h).Some? && !Failed(r.code)
    ensures var run := RemoveRun(m, h, r);
            Failed(run.report.code) <==>
              || Failed(run.result)
              || exists g :: g in run.visits && Failed(TriedRemove(m, g)) && m.wordsForRemove(g).Some?
    decreases RemoveRank(h)
  {
    RemoveRankFalls(h);
    var run := RemoveRun(m, h, r);
    var info := RemoveHandlers(h).value;
    var r1 := RecordedInRemove(m, h, r);
    assert h in run.visits;
    if Failed(TriedRemove(m, h)) && info.errorMode == ReturnError {
    } else if info.nextHandler.Some? {
      var rest := RemoveRun(m, info.nextHandler.value, r1);
      assert run.visits == [h] + rest.visits;
      if Failed(r1.code) {
        ErrorSticksInRemove(m, info.nextHandler.value, r1);
      } else {
        IgnoredButRecorded(m, info.nextHandler.value, r1);
      }
    }
  }

  /** Once a response has an error, nothing a remove request does changes it. */
  lemma {:induction false} ErrorSticksInRemove(m: Machine, h: Handler, r: Report)
    requires RemoveHandlers(h).Some? && Failed(r.code)
    ensures RemoveRun(m, h, r).report == r
    decreases RemoveRank(h)
  {
    RemoveRankFalls(h);
    if RemoveHandlers(h).value.nextHandler.Some? {
      ErrorSticksInRemove(m, RemoveHandlers(h).value.nextHandler.value, r);
    }
  }

  // Add requests.

  /** What the error handler's work comes to, given the status on the response. */
  function RolledBack(m: Machine, code: HResult): HResult {
    if Failed(m.create(ErrorHandler)) then m.create(ErrorHandler)
    else if Failed(m.make) then m.make
    else code
  }

  /** The error handler and the nested request can be had. */
  predicate CanRollBack(m: Machine) {
    !Failed(m.create(ErrorHandler)) && !Failed(m.make)
  }

  function AddOutcome(m: Machine, h: Handler, code: HResult): HResult {
    if h == ErrorHandler then RolledBack(m, code) else Tried(m, h)
  }

  /** What a handler does to the response while it works. */
  function Worked(m: Machine, h: Handler, r: Report): Report {
    if h == ErrorHandler then r
    else
      var r1 := if h == Extractor && !Failed(m.create(h)) then AfterUpdates(r, m.progress) else r;
      if Failed(Tried(m, h)) then
        if m.words(h).Some? then AfterError(r1, Tried(m, h), m.words(h).value) else r1
      else if h == InstallComplete && !m.cancelled then AfterUpdate(r1, Completed, 100.0)
      else r1
  }

  function AddRun(m: Machine, h: Handler, r: Report): Run
    decreases AddRank(h), r
  {
    AddRankFalls(h);
    var info := AddHandlers(h);
    var r1 := Worked(m, h, r);
    var hr := AddOutcome(m, h, r1.code);
    if Failed(hr) && info.errorMode != IgnoreAndProcessNextHandler then
      var r2 := AfterError(r1, hr, GENERIC_ADD);
      if info.errorMode == ReturnError then Run([h], hr, r2)
      else Then(h, AddRun(m, info.errorHandler.value, r2))
    else if info.nextHandler.None? then Run([h], S_OK, r1)
    else Then(h, AddRun(m, info.nextHandler.value, r1))
  }

  /** In the middle of a request: what is still to come makes the whole. */
  predicate AddLeft(m: Machine, whole: Run, visited: seq<Handler>, current: Option<Handler>, r: Report) {
    if current.None? then whole == Run(visited, S_OK, r)
    else
      var rest := AddRun(m, current.value, r);
      whole == Run(visited + rest.visits, rest.result, rest.report)
  }

  lemma AddLeftStep(m: Machine, whole: Run, visited: seq<Handler>, h: Handler, r: Report)
    requires AddLeft(m, whole, visited, Some(h), r)
    ensures var info, r1 := AddHandlers(h), Worked(m, h, r);
            var hr, done := AddOutcome(m, h, r1.code), visited + [h];
            if Failed(hr) && info.errorMode != IgnoreAndProcessNextHandler then
              var r2 := AfterError(r1, hr, GENERIC_ADD);
              if info.errorMode == ReturnError then whole == Run(done, hr, r2)
              else AddLeft(m, whole, done, info.errorHandler, r2)
            else AddLeft(m, whole, done, info.nextHandler, r1)
  {
    AddRankFalls(h);
    var rest := AddRun(m, h, r);
    if |rest.visits| > 0 {
      assert visited + rest.visits == visited + [h] + rest.visits[1..];
    }
  }

  // The same without the tables: the order of installation and the first handler in it to fail.

  const INSTALL := [
    PopulatePackageInfo, ValidateArchitecture, ValidateTargetDeviceFamily, ProcessPotentialUpdate, Extractor,
    PrepareDevirtualizedRegistry, VirtualFileHandler, WriteDevirtualizedRegistry, PSFScriptExecuter, StartMenuLink,
    AddRemovePrograms, Protocol, ComInterface, ComServer, StartupTask, FileTypeAssociation, FirewallRules, AutoPlay,
    AppExecutionAlias, InstallComplete]

  /** A failure before the extractor leaves nothing to undo. */
  const EXTRACTOR: nat := 4

  /** These handlers follow one another in the table, the first four without a way back. */
  predicate InOrder(order: seq<Handler>) {
    forall i :: 0 <= i < |order| ==> Placed(order, i)
  }

  predicate Placed(order: seq<Handler>, i: nat)
    requires i < |order|
  {
    && order[i] != ErrorHandler
    && AddHandlers(order[i])
       == HandlerInfo(if i + 1 < |order| then Some(order[i + 1]) else None,
                      if i < EXTRACTOR then ReturnError else ExecuteErrorHandler,
                      if i < EXTRACTOR then None else Some(ErrorHandler))
  }

  lemma InstallInOrder()
    ensures InOrder(INSTALL)
  {
    forall i | 0 <= i < |INSTALL| ensures Placed(INSTALL, i) {
      InstallPlaced(i);
    }
  }

  lemma InstallPlaced(i: nat)
    requires i < |INSTALL|
    ensures Placed(INSTALL, i)
  {
  }

  /** Everything up to `k` went well, and `k` did not, or is the end. */
  predicate FirstFailure(m: Machine, order: seq<Handler>, k: nat) {
    && k <= |order|
    && (forall i :: 0 <= i < k ==> !Failed(Tried(m, order[i])))
    && (k < |order| ==> Failed(Tried(m, order[k])))
  }

  lemma AddStep(m: Machine, order: seq<Handler>, i: nat, r: Report)
    requires i < |order| && Placed(order, i)
    ensures var h, run := order[i], AddRun(m, order[i], r);
            var r1 := Worked(m, h, r);
            if Failed(Tried(m, h)) then
              var r2 := AfterError(r1, Tried(m, h), GENERIC_ADD);
              run == if i < EXTRACTOR then Run([h], Tried(m, h), r2) else Then(h, AddRun(m, ErrorHandler, r2))
            else
              run == if i + 1 < |order| then Then(h, AddRun(m, order[i + 1], r1)) else Run([h], S_OK, r1)
  {
  }

  lemma ErrorStep(m: Machine, r: Report)
    requires Failed(r.code)
    ensures AddRun(m, ErrorHandler, r) == Run([ErrorHandler], RolledBack(m, r.code), r)
  {
  }

  /** No error on the response, and nobody was told of one. */
  predicate Clean(r: Report) {
    !Failed(r.code) && forall i :: 0 <= i < |r.told| ==> r.told[i].step != Error
  }

  datatype Status = Status(step: InstallationStep, percentage: real)

  function LastStatus(first: Status, statuses: seq<Status>): Status {
    if statuses == [] then first else statuses[|statuses| - 1]
  }

  /** The statuses that differ from the one before. */
  function Changes(first: Status, statuses: seq<Status>): seq<Status>
    decreases |statuses|
  {
    if statuses == [] then []
    else (if statuses[0] == first then [] else [statuses[0]]) + Changes(statuses[0], statuses[1..])
  }

  lemma {:induction false} ChangesAppend(first: Status, statuses: seq<Status>, last: Status)
    ensures Changes(first, statuses + [last])
            == Changes(first, statuses) + if last == LastStatus(first, statuses) then [] else [last]
    decreases |statuses|
  {
    if statuses == [] {
      assert [last][1..] == [];
    } else {
      assert (statuses + [last])[1..] == statuses[1..] + [last];
      ChangesAppend(statuses[0], statuses[1..], last);
    }
  }

  function Noticed(statuses: seq<Status>, code: HResult): seq<Notice> {
    if statuses == [] then []
    else Noticed(statuses[..|statuses| - 1], code)
         + [Notice(statuses[|statuses| - 1].step, statuses[|statuses| - 1].percentage, code)]
  }

  lemma {:induction false} NoticedAppend(a: seq<Status>, b: seq<Status>, code: HResult)
    ensures Noticed(a + b, code) == Noticed(a, code) + Noticed(b, code)
    decreases |b|
  {
    if b == [] {
      assert a + b == a;
    } else {
      assert (a + b)[..|a + b| - 1] == a + b[..|b| - 1];
      NoticedAppend(a, b[..|b| - 1], code);
    }
  }

  /** A report after these statuses: it shows the last, and a listener has been told of each change. */
  function Along(r: Report, statuses: seq<Status>): Report {
    var first := Status(r.step, r.percentage);
    var last := LastStatus(first, statuses);
    r.(step := last.step, percentage := last.percentage,
       told := r.told + if r.listening then Noticed(Changes(first, statuses), r.code) else [])
  }

  lemma AlongNothing(r: Report)
    ensures Along(r, []) == r
  {
    assert r.told + [] == r.told;
  }

  lemma AlongOneMore(r: Report, statuses: seq<Status>, step: InstallationStep, progress: real)
    ensures AfterUpdate(Along(r, statuses), step, progress) == Along(r, statuses + [Status(step, progress)])
  {
    var first, last := Status(r.step, r.percentage), Status(step, progress);
    ChangesAppend(first, statuses, last);
    if r.listening && last != LastStatus(first, statuses) {
      NoticedAppend(Changes(first, statuses), [last], r.code);
      assert [last][..0] == [] && Noticed([last], r.code) == [Notice(step, progress, r.code)];
      Regroup(r.told, Noticed(Changes(first, statuses), r.code), [Notice(step, progress, r.code)]);
    } else if last == LastStatus(first, statuses) {
      assert Changes(first, statuses) + [] == Changes(first, statuses);
    }
  }

  function Extractions(progress: seq<real>): seq<Status> {
    if progress == [] then []
    else Extractions(progress[..|progress| - 1]) + [Status(Extraction, progress[|progress| - 1])]
  }

  lemma {:induction false} AlongProgress(r: Report, statuses: seq<Status>, progress: seq<real>)
    ensures AfterUpdates(Along(r, statuses), progress) == Along(r, statuses + Extractions(progress))
  {
    if progress == [] {
      assert statuses + [] == statuses;
    } else {
      var init, last := progress[..|progress| - 1], progress[|progress| - 1];
      AlongProgress(r, statuses, init);
      AlongOneMore(r, statuses + Extractions(init), Extraction, last);
      Regroup(statuses, Extractions(init), [Status(Extraction, last)]);
    }
  }

  /** The extractor is the one to report progress, and the last of the handlers that all is done. */
  predicate Reporting(order: seq<Handler>) {
    && |order| > EXTRACTOR + 1
    && forall i :: 0 <= i < |order| ==> ReportsRight(order, i)
  }

  predicate ReportsRight(order: seq<Handler>, i: nat)
    requires i < |order|
  {
    && (order[i] == Extractor <==> i == EXTRACTOR)
    && (order[i] == InstallComplete <==> i == |order| - 1)
  }

  lemma InstallReports()
    ensures Reporting(INSTALL)
  {
    forall i | 0 <= i < |INSTALL| ensures ReportsRight(INSTALL, i) {
      InstallReportsRight(i);
    }
  }

  lemma InstallReportsRight(i: nat)
    requires i < |INSTALL|
    ensures ReportsRight(INSTALL, i)
  {
  }

  /** What has been reported when the first i of n handlers have gone well. */
  function Statuses(m: Machine, i: nat, n: nat): seq<Status> {
    (if i > EXTRACTOR then Extractions(m.progress) else [])
    + (if i == n && !m.cancelled then [Status(Completed, 100.0)] else [])
  }

  /** What has been reported when handler k fails: the extractor may have got some way. */
  function StatusesBefore(m: Machine, k: nat): seq<Status> {
    if k > EXTRACTOR || (k == EXTRACTOR && !Failed(m.create(Extractor))) then Extractions(m.progress) else []
  }

  lemma WorkedAlong(m: Machine, order: seq<Handler>, i: nat, r: Report)
    requires Reporting(order) && i < |order| && order[i] != ErrorHandler && !Failed(Tried(m, order[i]))
    ensures Worked(m, order[i], Along(r, Statuses(m, i, |order|))) == Along(r, Statuses(m, i + 1, |order|))
  {
    assert ReportsRight(order, i);
    var before := Statuses(m, i, |order|);
    if i == EXTRACTOR {
      AlongProgress(r, before, m.progress);
      assert before + Extractions(m.progress) == Statuses(m, i + 1, |order|);
    } else if i == |order| - 1 && !m.cancelled {
      AlongOneMore(r, before, Completed, 100.0);
      assert before + [Status(Completed, 100.0)] == Statuses(m, i + 1, |order|);
    }
  }

  lemma FailedAlong(m: Machine, order: seq<Handler>, k: nat, r: Report)
    requires Reporting(order) && k < |order| && order[k] != ErrorHandler && Failed(Tried(m, order[k])) && !Failed(r.code)
    ensures var r1 := Along(r, StatusesBefore(m, k));
            var r2 := AfterError(Worked(m, order[k], Along(r, Statuses(m, k, |order|))), Tried(m, order[k]), GENERIC_ADD);
            r2.told == r1.told + if r.listening then [Notice(Error, 0.0, Tried(m, order[k]))] else []
  {
    assert ReportsRight(order, k);
    var before := Statuses(m, k, |order|);
    if k == EXTRACTOR {
      AlongProgress(r, before, m.progress);
      assert before + Extractions(m.progress) == Extractions(m.progress);
    }
    assert Extractions(m.progress) + [] == Extractions(m.progress);
  }

  /** What stays when a handler only reports progress. */
  predicate SameButProgress(r: Report, r1: Report) {
    r1.code == r.code && r1.text == r.text && r1.listening == r.listening && (Clean(r) ==> Clean(r1))
  }

  lemma {:induction false} UpdatesKeep(r: Report, progress: seq<real>)
    ensures SameButProgress(r, AfterUpdates(r, progress))
  {
    if progress != [] {
      UpdatesKeep(r, progress[..|progress| - 1]);
    }
  }

  lemma WorkedWell(m: Machine, h: Handler, r: Report)
    requires !Failed(Tried(m, h)) && h != ErrorHandler
    ensures SameButProgress(r, Worked(m, h, r))
  {
    UpdatesKeep(r, m.progress);
  }

  /** The response shows this handler's failure, and the last thing the callback heard is that, once. */
  predicate Shows(m: Machine, h: Handler, r: Report) {
    && r.step == Error && r.percentage == 0.0
    && r.code == Tried(m, h)
    && r.text == (if m.words(h).Some? then m.words(h).value else GENERIC_ADD)
    && (r.listening ==>
          && r.told != []
          && r.told[|r.told| - 1] == Notice(Error, 0.0, r.code)
          && forall i :: 0 <= i < |r.told| - 1 ==> r.told[i].step != Error)
  }

  lemma WorkedBadly(m: Machine, h: Handler, r: Report)
    requires Failed(Tried(m, h)) && h != ErrorHandler && Clean(r)
    ensures Shows(m, h, AfterError(Worked(m, h, r), Tried(m, h), GENERIC_ADD))
  {
    UpdatesKeep(r, m.progress);
  }

  /** The report when handler k has failed. */
  predicate Told(m: Machine, r0: Report, k: nat, hr: HResult, r: Report) {
    && r.listening == r0.listening
    && r.told == Along(r0, StatusesBefore(m, k)).told + if r0.listening then [Notice(Error, 0.0, hr)] else []
  }

  /** What the rest of an add request, from `i` on, comes to when `k` is the first handler to fail and the report was
      r at the start. */
  predicate ComesTo(m: Machine, order: seq<Handler>, r: Report, i: nat, k: nat, run: Run)
    requires i <= k <= |order|
  {
    if k == |order| then
      && run.visits == order[i..] && run.result == S_OK && Clean(run.report)
      && run.report == Along(r, Statuses(m, k, k))
    else
      && Shows(m, order[k], run.report)
      && Told(m, r, k, Tried(m, order[k]), run.report)
      && run.visits == order[i..k + 1] + (if k < EXTRACTOR then [] else [ErrorHandler])
      && run.result == if k < EXTRACTOR then Tried(m, order[k]) else RolledBack(m, Tried(m, order[k]))
  }

  lemma FailsAt(m: Machine, order: seq<Handler>, r0: Report, k: nat, r: Report)
    requires k < |order| && Placed(order, k) && Reporting(order)
    requires Failed(Tried(m, order[k])) && Clean(r) && r == Along(r0, Statuses(m, k, |order|))
    ensures var r2 := AfterError(Worked(m, order[k], r), Tried(m, order[k]), GENERIC_ADD);
            Shows(m, order[k], r2) && Told(m, r0, k, Tried(m, order[k]), r2)
  {
    WorkedBadly(m, order[k], r);
    FailedAlong(m, order, k, r0);
    UpdatesKeep(r, m.progress);
  }

  /** The first failure decides what the rest of an add request comes to. */
  predicate ComesOut(m: Machine, order: seq<Handler>, r: Report, i: nat, run: Run) {
    exists k :: i <= k <= |order| && FirstFailure(m, order, k) && ComesTo(m, order, r, i, k, run)
  }

  predicate GoneWell(m: Machine, order: seq<Handler>, n: nat) {
    forall i :: 0 <= i < |order| && i < n ==> !Failed(Tried(m, order[i]))
  }

  lemma Single(order: seq<Handler>, i: nat)
    requires i < |order|
    ensures order[i..i + 1] == [order[i]] && (i + 1 == |order| ==> order[i..] == [order[i]])
  {
  }

  lemma LastStep(m: Machine, order: seq<Handler>, r0: Report, k: nat, r: Report)
    requires k < |order| && Placed(order, k) && Reporting(order)
    requires Failed(Tried(m, order[k])) && GoneWell(m, order, k) && Clean(r) && r == Along(r0, Statuses(m, k, |order|))
    ensures ComesOut(m, order, r0, k, AddRun(m, order[k], r))
  {
    var h := order[k];
    AddStep(m, order, k, r);
    FailsAt(m, order, r0, k, r);
    ErrorStep(m, AfterError(Worked(m, h, r), Tried(m, h), GENERIC_ADD));
    Single(order, k);
    assert FirstFailure(m, order, k);
  }

  /** The last handler goes well. */
  lemma EndStep(m: Machine, order: seq<Handler>, r0: Report, r: Report)
    requires InOrder(order) && Reporting(order) && Clean(r)
    requires GoneWell(m, order, |order|) && r == Along(r0, Statuses(m, |order| - 1, |order|))
    ensures ComesOut(m, order, r0, |order| - 1, AddRun(m, order[|order| - 1], r))
  {
    var i := |order| - 1;
    assert Placed(order, i);
    AddStep(m, order, i, r);
    WorkedWell(m, order[i], r);
    WorkedAlong(m, order, i, r0);
    Single(order, i);
    assert FirstFailure(m, order, |order|);
  }

  lemma EndsHere(m: Machine, order: seq<Handler>, r0: Report, i: nat, r: Report)
    requires InOrder(order) && Reporting(order) && i < |order| && GoneWell(m, order, i)
    requires Failed(Tried(m, order[i])) || i + 1 == |order|
    requires Clean(r) && r == Along(r0, Statuses(m, i, |order|))
    ensures ComesOut(m, order, r0, i, AddRun(m, order[i], r))
  {
    assert Placed(order, i);
    if Failed(Tried(m, order[i])) {
      LastStep(m, order, r0, i, r);
    } else {
      EndStep(m, order, r0, r);
    }
  }

  lemma GoesOn(m: Machine, order: seq<Handler>, r0: Report, i: nat, r: Report) returns (r1: Report)
    requires i + 1 < |order| && InOrder(order) && Reporting(order) && !Failed(Tried(m, order[i]))
    requires Clean(r) && r == Along(r0, Statuses(m, i, |order|))
    ensures AddRun(m, order[i], r) == Then(order[i], AddRun(m, order[i + 1], r1))
    ensures Clean(r1) && r1 == Along(r0, Statuses(m, i + 1, |order|))
  {
    assert Placed(order, i);
    AddStep(m, order, i, r);
    WorkedWell(m, order[i], r);
    WorkedAlong(m, order, i, r0);
    r1 := Worked(m, order[i], r);
  }

  /** One handler done, the rest as they come. */
  lemma OneMore(m: Machine, order: seq<Handler>, r0: Report, i: nat, k: nat, run: Run)
    requires i < k <= |order| && i + 1 < |order| && ComesTo(m, order, r0, i + 1, k, run)
    ensures ComesTo(m, order, r0, i, k, Then(order[i], run))
  {
    if k < |order| {
      FirstOf(order, i, k + 1);
      Regroup([order[i]], order[i + 1..k + 1], if k < EXTRACTOR then [] else [ErrorHandler]);
    } else {
      FirstOf(order, i, k);
    }
  }

  lemma ComesOutBefore(m: Machine, order: seq<Handler>, r0: Report, i: nat, run: Run)
    requires i + 1 < |order| && ComesOut(m, order, r0, i + 1, run)
    ensures ComesOut(m, order, r0, i, Then(order[i], run))
  {
    var k :| i + 1 <= k <= |order| && FirstFailure(m, order, k) && ComesTo(m, order, r0, i + 1, k, run);
    OneMore(m, order, r0, i, k, run);
  }

  /** From handler i on, which finds the report as those before it have left it. */
  lemma {:induction false} AddRunFrom(m: Machine, order: seq<Handler>, r0: Report, i: nat, r: Report)
    requires InOrder(order) && Reporting(order) && i < |order| && GoneWell(m, order, i)
    requires Clean(r) && r == Along(r0, Statuses(m, i, |order|))
    ensures ComesOut(m, order, r0, i, AddRun(m, order[i], r))
    decreases |order| - i
  {
    if Failed(Tried(m, order[i])) || i + 1 == |order| {
      EndsHere(m, order, r0, i, r);
    } else {
      var r1 := GoesOn(m, order, r0, i, r);
      AddRunFrom(m, order, r0, i + 1, r1);
      var rest := AddRun(m, order[i + 1], r1);
      ComesOutBefore(m, order, r0, i, rest);
    }
  }

  lemma LastOfExtractions(progress: seq<real>)
    requires progress != []
    ensures |Extractions(progress)| > 0
    ensures Extractions(progress)[|Extractions(progress)| - 1] == Status(Extraction, progress[|progress| - 1])
  {
  }

  /** A request that went well says so, and has told it last. */
  predicate Completes(r: Report, r1: Report) {
    && r1.step == Completed && r1.percentage == 100.0 && r1.code == r.code
    && (r.listening && r.step != Completed ==> r1.told != [] && r1.told[|r1.told| - 1] == Notice(Completed, 100.0, r.code))
  }

  /** A cancelled request stays at the last progress, or where it was. */
  predicate StopsAt(progress: seq<real>, r: Report, r1: Report) {
    Status(r1.step, r1.percentage)
    == if progress == [] then Status(r.step, r.percentage) else Status(Extraction, progress[|progress| - 1])
  }

  lemma EndsCompleted(m: Machine, r: Report, n: nat)
    requires n > EXTRACTOR && !m.cancelled
    ensures Completes(r, Along(r, Statuses(m, n, n)))
  {
    var first, before, last := Status(r.step, r.percentage), Extractions(m.progress), Status(Completed, 100.0);
    ChangesAppend(first, before, last);
    if m.progress != [] {
      LastOfExtractions(m.progress);
    }
    if r.step != Completed {
      NoticedAppend(Changes(first, before), [last], r.code);
      assert [last][..0] == [];
    }
  }

  lemma EndsCancelled(m: Machine, r: Report, n: nat)
    requires n > EXTRACTOR && m.cancelled
    ensures StopsAt(m.progress, r, Along(r, Statuses(m, n, n)))
  {
    if m.progress != [] {
      LastOfExtractions(m.progress);
    }
    assert Extractions(m.progress) + [] == Extractions(m.progress);
  }

  /**
   An add request, in one piece: the handlers visited and the result depend on the first handler to fail; the listener
   has heard each change of the progress and, at the end, of the failure or of the completion.
   */
  lemma AddRunIs(m: Machine, r: Report) returns (k: nat)
    requires Clean(r)
    ensures FirstFailure(m, INSTALL, k)
    ensures ComesTo(m, INSTALL, r, 0, k, AddRun(m, PopulatePackageInfo, r))
    ensures var report := AddRun(m, PopulatePackageInfo, r).report;
            && (k == |INSTALL| && !m.cancelled ==> Completes(r, report))
            && (k == |INSTALL| && m.cancelled ==> StopsAt(m.progress, r, report))
  {
    InstallInOrder();
    InstallReports();
    AlongNothing(r);
    AddRunFrom(m, INSTALL, r, 0, r);
    k :| 0 <= k <= |INSTALL| && FirstFailure(m, INSTALL, k) && ComesTo(m, INSTALL, r, 0, k, AddRun(m, PopulatePackageInfo, r));
    if m.cancelled {
      EndsCancelled(m, r, |INSTALL|);
    } else {
      EndsCompleted(m, r, |INSTALL|);
    }
  }

  /** What a request that succeeds leaves on its response. */
  lemma AddEnds(m: Machine, r: Report)
    requires Clean(r)
    ensures var run := AddRun(m, PopulatePackageInfo, r);
            !Failed(run.result) ==> if m.cancelled then StopsAt(m.progress, r, run.report) else Completes(r, run.report)
  {
    var _ := AddRunIs(m, r);
  }

  /** An add request fails exactly when a handler it visited did, the error handler being such a one. */
  lemma SucceedsIff(m: Machine, r: Report)
    requires Clean(r)
    ensures var run := AddRun(m, PopulatePackageInfo, r);
            !Failed(run.result) <==> forall h :: h in run.visits ==> h != ErrorHandler && !Failed(Tried(m, h))
  {
    var k := AddRunIs(m, r);
    var run := AddRun(m, PopulatePackageInfo, r);
    InstallInOrder();
    if k < |INSTALL| {
      assert INSTALL[0..k + 1][k] == INSTALL[k];
      assert INSTALL[k] in run.visits;
    } else {
      forall h | h in run.visits ensures h != ErrorHandler && !Failed(Tried(m, h)) {
        var i :| 0 <= i < |INSTALL| && INSTALL[i] == h;
        assert Placed(INSTALL, i);
      }
    }
  }

  lemma ErrorHandlerNotIn(order: seq<Handler>, k: nat)
    requires InOrder(order) && k <= |order|
    ensures ErrorHandler !in order[0..k]
  {
    var s := order[0..k];
    forall i | 0 <= i < |s| ensures s[i] != ErrorHandler {
      assert Placed(order, i);
    }
  }

  lemma BeforeExtractor(i: nat)
    requires i < EXTRACTOR
    ensures !HasUndo(INSTALL[i])
  {
  }

  lemma LastWhenNeeded(m: Machine, order: seq<Handler>, r: Report, k: nat, run: Run)
    requires InOrder(order) && k <= |order| && ComesTo(m, order, r, 0, k, run)
    requires forall i :: 0 <= i < |order| && i < EXTRACTOR ==> !HasUndo(order[i])
    requires Failed(run.result) && exists h :: h in run.visits && HasUndo(h)
    ensures run.visits[|run.visits| - 1] == ErrorHandler && ErrorHandler !in run.visits[..|run.visits| - 1]
  {
    if k < |order| {
      ErrorHandlerNotIn(order, k + 1);
      NoUndoIn(order, k + 1);
      if k >= EXTRACTOR {
        assert run.visits[..|run.visits| - 1] == order[0..k + 1];
      }
    }
  }

  lemma NoUndoIn(order: seq<Handler>, n: nat)
    requires n <= |order| && forall i :: 0 <= i < |order| && i < EXTRACTOR ==> !HasUndo(order[i])
    ensures n <= EXTRACTOR ==> forall h :: h in order[0..n] ==> !HasUndo(h)
  {
  }

  /** If anything visited has undo work, a failing request has visited the error handler, last and once. */
  lemma RollsBackWhenNeeded(m: Machine, r: Report)
    requires Clean(r)
    ensures var run := AddRun(m, PopulatePackageInfo, r);
            Failed(run.result) && (exists h :: h in run.visits && HasUndo(h)) ==>
              run.visits[|run.visits| - 1] == ErrorHandler && ErrorHandler !in run.visits[..|run.visits| - 1]
  {
    var k := AddRunIs(m, r);
    var run := AddRun(m, PopulatePackageInfo, r);
    if Failed(run.result) && exists h :: h in run.visits && HasUndo(h) {
      InstallInOrder();
      forall i | 0 <= i < EXTRACTOR ensures !HasUndo(INSTALL[i]) {
        BeforeExtractor(i);
      }
      LastWhenNeeded(m, INSTALL, r, k, run);
    }
  }

  lemma ErrorComesLast(m: Machine, order: seq<Handler>, r: Report, k: nat, run: Run)
    requires InOrder(order) && FirstFailure(m, order, k) && ComesTo(m, order, r, 0, k, run)
    requires CanRollBack(m) && ErrorHandler in run.visits
    ensures |run.visits| >= 2 && run.result == run.report.code == Tried(m, run.visits[|run.visits| - 2])
    ensures Failed(run.result)
    ensures forall i :: 0 <= i < |run.visits| - 2 ==> !Failed(Tried(m, run.visits[i]))
  {
    if k == |order| {
      ErrorHandlerNotIn(order, k);
    } else if k < EXTRACTOR {
      ErrorHandlerNotIn(order, k + 1);
    } else {
      var before := order[0..k + 1];
      assert run.visits == before + [ErrorHandler];
      assert before[k] == order[k];
      forall i | 0 <= i < k ensures !Failed(Tried(m, run.visits[i])) {
        assert run.visits[i] == before[i] == order[i];
      }
    }
  }

  /**
   A failure that reaches the error handler comes back as the status of the handler that failed
   first, which is also what the response shows, provided the removal can be asked for.
   */
  lemma RollbackReturnsFirst(m: Machine, r: Report)
    requires Clean(r)
    requires CanRollBack(m) && ErrorHandler in AddRun(m, PopulatePackageInfo, r).visits
    ensures var run := AddRun(m, PopulatePackageInfo, r);
            && |run.visits| >= 2
            && run.result == run.report.code == Tried(m, run.visits[|run.visits| - 2])
            && Failed(run.result)
            && forall i :: 0 <= i < |run.visits| - 2 ==> !Failed(Tried(m, run.visits[i]))
  {
    var k := AddRunIs(m, r);
    InstallInOrder();
    ErrorComesLast(m, INSTALL, r, k, AddRun(m, PopulatePackageInfo, r));
  }

  /**
   The removal that the error handler asks for visits every handler with undo work, and so every one
   that the installation visited, exactly if it finds the package's information.
   */
  lemma RollbackCovers(m: Machine, r0: Report, h: Handler)
    requires HasUndo(h)
    ensures h in RemoveRun(m, PopulatePackageInfo, r0).visits <==> !Failed(TriedRemove(m, PopulatePackageInfo))
  {
    RemoveVisitsAll(m, r0);
  }

  // What the callback hears.

  /** The callback was last told what the response says now, and never the same twice in a row. */
  predicate Steady(r: Report) {
    && (r.listening && r.told != [] ==> r.told[|r.told| - 1] == Notice(r.step, r.percentage, r.code))
    && forall i :: 0 < i < |r.told| ==> r.told[i - 1] != r.told[i]
  }

  lemma ErrorKeepsSteady(r: Report, errorCode: HResult, errorText: string)
    requires Steady(r) && Failed(errorCode)
    ensures Steady(AfterError(r, errorCode, errorText))
  {
  }

  lemma UpdateKeepsSteady(r: Report, step: InstallationStep, progress: real)
    requires Steady(r)
    ensures Steady(AfterUpdate(r, step, progress))
  {
  }

  lemma {:induction false} UpdatesKeepSteady(r: Report, progress: seq<real>)
    requires Steady(r)
    ensures Steady(AfterUpdates(r, progress))
  {
    if progress != [] {
      UpdatesKeepSteady(r, progress[..|progress| - 1]);
    }
  }

  lemma WorkedKeepsSteady(m: Machine, h: Handler, r: Report)
    requires Steady(r)
    ensures Steady(Worked(m, h, r))
  {
    UpdatesKeepSteady(r, m.progress);
    var r1 := if h == Extractor && !Failed(m.create(h)) then AfterUpdates(r, m.progress) else r;
    UpdateKeepsSteady(r1, Completed, 100.0);
    if Failed(Tried(m, h)) && m.words(h).Some? {
      ErrorKeepsSteady(r1, Tried(m, h), m.words(h).value);
    }
  }

  /** Whatever happens in a request, its callback is never told the same twice in a row. */
  lemma {:induction false} AddTellsChanges(m: Machine, h: Handler, r: Report)
    requires Steady(r)
    ensures Steady(AddRun(m, h, r).report)
    decreases AddRank(h), r
  {
    AddRankFalls(h);
    WorkedKeepsSteady(m, h, r);
    var info, r1 := AddHandlers(h), Worked(m, h, r);
    var hr := AddOutcome(m, h, r1.code);
    if Failed(hr) && info.errorMode != IgnoreAndProcessNextHandler {
      var r2 := AfterError(r1, hr, GENERIC_ADD);
      ErrorKeepsSteady(r1, hr, GENERIC_ADD);
      if info.errorMode != ReturnError {
        AddTellsChanges(m, info.errorHandler.value, r2);
      }
    } else if info.nextHandler.Some? {
      AddTellsChanges(m, info.nextHandler.value, r1);
    }
  }

  lemma {:induction false} RemoveTellsChanges(m: Machine, h: Handler, r: Report)
    requires RemoveHandlers(h).Some? && Steady(r)
    ensures Steady(RemoveRun(m, h, r).report)
    decreases RemoveRank(h), r
  {
    RemoveRankFalls(h);
    var info, hr, r1 := RemoveHandlers(h).value, TriedRemove(m, h), RecordedInRemove(m, h, r);
    if Failed(hr) && m.wordsForRemove(h).Some? {
      ErrorKeepsSteady(r, hr, m.wordsForRemove(h).value);
    }
    if Failed(hr) && info.errorMode == ReturnError {
      ErrorKeepsSteady(r1, hr, GENERIC_REMOVE);
    } else if info.nextHandler.Some? {
      RemoveTellsChanges(m, info.nextHandler.value, r1);
    }
  }
}
