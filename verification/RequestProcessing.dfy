/**
 MsixRequest.cpp, ErrorHandler.cpp and MsixResponse.cpp: the objects and the loops over the tables.
 */
module RequestProcessing {
  import opened Wrappers
  import opened HandlerTables
  import opened Requests

  class MsixResponse {
    var percentage: real
    var status: InstallationStep
    var hresultTextCode: HResult
    var textStatus: string
    var callback: bool
    var told: seq<Notice>

    function View(): Report
      reads this
    {
      Report(percentage, status, hresultTextCode, textStatus, callback, told)
    }

    constructor (firstPercentage: real)
      ensures View() == NewReport(firstPercentage)
    {
      percentage, status, hresultTextCode, textStatus := firstPercentage, Unknown, S_OK, "";
      callback, told := false, [];
    }

    method Call()
      modifies `told
      ensures View() == Tell(old(View()))
    {
      if callback {
        told := told + [Notice(status, percentage, hresultTextCode)];
      }
    }

    /** A repeated status is not told again; any other is, exactly once. An error stays what it was. */
    method Update(newStatus: InstallationStep, progress: real)
      modifies this
      ensures percentage == progress && status == newStatus
      ensures hresultTextCode == old(hresultTextCode) && textStatus == old(textStatus) && callback == old(callback)
      ensures old(percentage == progress && status == newStatus) || !callback ==> told == old(told)
      ensures old(percentage != progress || status != newStatus) && callback ==>
                told == old(told) + [Notice(newStatus, progress, hresultTextCode)]
      ensures old(Steady(View())) ==> Steady(View())
      ensures View() == AfterUpdate(old(View()), newStatus, progress)
    {
      if percentage == progress && status == newStatus {
        return;
      }
      percentage := progress;
      status := newStatus;
      Call();
    }

    /** The first error sticks. */
    method SetErrorStatus(errorCode: HResult, errorText: string)
      modifies this
      ensures !Failed(old(hresultTextCode)) ==>
                && percentage == 0.0 && status == Error && hresultTextCode == errorCode && textStatus == errorText
                && told == old(told) + if callback then [Notice(Error, 0.0, errorCode)] else []
      ensures View() == AfterError(old(View()), errorCode, errorText)
      ensures Failed(old(hresultTextCode)) ==> View() == old(View())
    {
      if !Failed(hresultTextCode) {
        percentage := 0.0;
        status := Error;
        hresultTextCode := errorCode;
        textStatus := errorText;
        Call();
      }
    }
  }

  function NewReport(firstPercentage: real): Report {
    Report(firstPercentage, Unknown, S_OK, "", false, [])
  }

  datatype OperationType = Add | Remove

  /** What a nested request did, and to which package. */
  datatype Undone = Undone(package: string, run: Run)

  /** The report of a request that has just been started. */
  function StartedReport(r: Report): Report {
    AfterUpdate(r, Started, 0.0)
  }

  function Rollback(m: Machine): Undone {
    Undone(m.packageName, RemoveRun(m, PopulatePackageInfo, StartedReport(NewReport(m.firstPercentage))))
  }

  class MsixRequest {
    const machine: Machine
    const operationType: OperationType
    const packageFullName: string
    const response: MsixResponse
    var packageInfo: Option<string>
    ghost var visited: seq<Handler>
    ghost var undone: Option<Undone>

    constructor (m: Machine, op: OperationType, name: string)
      ensures machine == m && operationType == op && packageFullName == name
      ensures fresh(response) && response.View() == NewReport(m.firstPercentage)
      ensures packageInfo.None? && visited == [] && undone.None?
    {
      machine, operationType, packageFullName := m, op, name;
      response := new MsixResponse(m.firstPercentage);
      packageInfo, visited, undone := None, [], None;
    }

    static method Make(m: Machine, op: OperationType, name: string) returns (hr: HResult, request: MsixRequest?)
      ensures hr == if Failed(m.make) then m.make else S_OK
      ensures request == null <==> Failed(hr)
      ensures request != null ==>
                && fresh(request) && fresh(request.response)
                && request.machine == m && request.operationType == op && request.packageFullName == name
                && request.response.View() == NewReport(m.firstPercentage)
                && request.packageInfo.None? && request.visited == [] && request.undone.None?
    {
      var made := new MsixRequest(m, op, name);
      if Failed(m.make) {
        return m.make, null;
      }
      return S_OK, made;
    }

    /** What an untouched request looks like. */
    ghost predicate New()
      reads this, response
    {
      packageInfo.None? && visited == [] && undone.None? && Clean(response.View())
    }

    // Handlers in a remove request.

    method TryForRemove(h: Handler) returns (hr: HResult)
      requires h != PopulatePackageInfo ==> packageInfo.Some?
      modifies this`packageInfo, response
      ensures hr == TriedRemove(machine, h)
      ensures response.View() == RecordedInRemove(machine, h, old(response.View()))
      ensures if h == PopulatePackageInfo && !Failed(hr) then packageInfo == Some(machine.installedName)
              else packageInfo == old(packageInfo)
    {
      hr := machine.createForRemove(h);
      if !Failed(hr) {
        hr := machine.executeForRemove(h);
      }
      if Failed(hr) {
        if machine.wordsForRemove(h).Some? {
          response.SetErrorStatus(hr, machine.wordsForRemove(h).value);
        }
      } else if h == PopulatePackageInfo {
        packageInfo := Some(machine.installedName);
      }
    }

    method ProcessRemoveRequest() returns (hr: HResult)
      requires New()
      modifies this`packageInfo, this`visited, response
      ensures Run(visited, hr, response.View()) == RemoveRun(machine, PopulatePackageInfo, old(response.View()))
    {
      ghost var whole := RemoveRun(machine, PopulatePackageInfo, response.View());
      var current := Some(PopulatePackageInfo);
      while current.Some?
        invariant current.Some? ==>
                    && RemoveHandlers(current.value).Some?
                    && (current.value != PopulatePackageInfo ==> packageInfo.Some?)
                    && var rest := RemoveRun(machine, current.value, response.View());
                       whole == Run(visited + rest.visits, rest.result, rest.report)
        invariant current.None? ==> whole == Run(visited, S_OK, response.View())
        decreases if current.Some? then RemoveRank(current.value) + 1 else 0
      {
        var h := current.value;
        RemoveRankFalls(h);
        var info := RemoveHandlers(h).value;
        hr := TryForRemove(h);
        visited := visited + [h];
        if Failed(hr) && info.errorMode == ReturnError {
          response.SetErrorStatus(hr, GENERIC_REMOVE);
          return;
        }
        current := info.nextHandler;
      }
      hr := S_OK;
    }

    // Handlers in an add request.

    /** ErrorHandler: asks for the removal of the package and reports what went wrong first. */
    method RollBack() returns (hr: HResult)
      requires operationType == Add && packageInfo == Some(machine.packageName)
      modifies this`undone
      ensures hr == if Failed(machine.make) then machine.make else response.hresultTextCode
      ensures undone == if Failed(machine.make) then old(undone) else Some(Rollback(machine))
      ensures !Failed(machine.make) ==> undone.value.package == packageInfo.value
      decreases 1, 1
    {
      hr := RemovePackage(packageInfo.value);
      if Failed(hr) {
        return;
      }
      hr := response.hresultTextCode;
    }

    method RemovePackage(name: string) returns (hr: HResult)
      requires name == machine.packageName
      modifies this`undone
      ensures hr == if Failed(machine.make) then machine.make else S_OK
      ensures undone == if Failed(machine.make) then old(undone) else Some(Rollback(machine))
      ensures !Failed(machine.make) ==> undone.value.package == name
      decreases 0, 6
    {
      var request;
      hr, request := Make(machine, Remove, name);
      if Failed(hr) {
        return;
      }
      var cancelled := request.ProcessRequest();
      undone := Some(Undone(request.packageFullName, Run(request.visited, cancelled, request.response.View())));
      hr := S_OK;
    }

    method ReportProgress()
      modifies response
      ensures response.View() == AfterUpdates(old(response.View()), machine.progress)
    {
      var i := 0;
      while i < |machine.progress|
        invariant i <= |machine.progress|
        invariant response.View() == AfterUpdates(old(response.View()), machine.progress[..i])
      {
        response.Update(Extraction, machine.progress[i]);
        i := i + 1;
        assert machine.progress[..i][..i - 1] == machine.progress[..i - 1];
      }
      assert machine.progress[..i] == machine.progress;
    }

    method TryForAdd(h: Handler) returns (hr: HResult)
      requires operationType == Add && h != ErrorHandler
      requires h != PopulatePackageInfo ==> packageInfo.Some?
      modifies this`packageInfo, response
      ensures hr == Tried(machine, h)
      ensures response.View() == Worked(machine, h, old(response.View()))
      ensures packageInfo
              == if h == PopulatePackageInfo && !Failed(hr) then Some(machine.packageName) else old(packageInfo)
    {
      hr := machine.create(h);
      if !Failed(hr) {
        if h == Extractor {
          ReportProgress();
        }
        hr := machine.execute(h);
      }
      if Failed(hr) {
        if machine.words(h).Some? {
          response.SetErrorStatus(hr, machine.words(h).value);
        }
      } else if h == PopulatePackageInfo {
        packageInfo := Some(machine.packageName);
      } else if h == InstallComplete && !machine.cancelled {
        response.Update(Completed, 100.0);
      }
    }

    /** One round of the loop over the add table. */
    method Step(h: Handler) returns (hr: HResult)
      requires operationType == Add
      requires h != PopulatePackageInfo ==> packageInfo == Some(machine.packageName)
      modifies this`packageInfo, this`undone, response
      ensures response.View() == Worked(machine, h, old(response.View()))
      ensures hr == AddOutcome(machine, h, response.hresultTextCode)
      ensures h != PopulatePackageInfo || !Failed(hr) ==> packageInfo == Some(machine.packageName)
      ensures undone
              == if h == ErrorHandler && !Failed(machine.create(h)) && !Failed(machine.make) then Some(Rollback(machine))
                 else old(undone)
      decreases 1, 2
    {
      if h == ErrorHandler {
        hr := machine.create(h);
        if !Failed(hr) {
          hr := RollBack();
        }
      } else {
        hr := TryForAdd(h);
      }
    }

    /** Where an add request stands before the error handler. */
    ghost predicate Standing(current: Option<Handler>)
      reads this`packageInfo, this`undone, this`visited, response`hresultTextCode
    {
      && undone.None? && ErrorHandler !in visited
      && (current.Some? && current.value != PopulatePackageInfo ==> packageInfo == Some(machine.packageName))
      && (current == Some(ErrorHandler) ==> Failed(response.hresultTextCode))
    }

    /** The nested request is there exactly when the error handler could make one, and is for the package of this
        request. */
    ghost predicate Settled()
      reads this`undone, this`visited, this`packageInfo
    {
      && (undone.Some? ==> packageInfo == Some(undone.value.package))
      && undone == if ErrorHandler in visited && CanRollBack(machine) then Some(Rollback(machine)) else None
    }

    /** The body of the loop: one handler, and where it leads. */
    method Round(h: Handler, ghost whole: Run) returns (hr: HResult, returned: bool, next: Option<Handler>)
      requires operationType == Add
      requires AddLeft(machine, whole, visited, Some(h), response.View()) && Standing(Some(h))
      modifies this`packageInfo, this`visited, this`undone, response
      ensures returned ==> whole == Run(visited, hr, response.View()) && Settled()
      ensures !returned ==> AddLeft(machine, whole, visited, next, response.View()) && Standing(next)
      ensures next.Some? ==> AddRank(next.value) < AddRank(h)
      decreases 1, 3
    {
      AddRankFalls(h);
      AddLeftStep(machine, whole, visited, h, response.View());
      var info := AddHandlers(h);
      returned := false;
      hr := Step(h);
      visited := visited + [h];
      if Failed(hr) && info.errorMode != IgnoreAndProcessNextHandler {
        response.SetErrorStatus(hr, GENERIC_ADD);
        returned := info.errorMode == ReturnError;
        next := info.errorHandler;
      } else {
        next := info.nextHandler;
      }
    }

    method ProcessAddRequest() returns (hr: HResult)
      requires New() && operationType == Add
      modifies this`packageInfo, this`visited, this`undone, response
      ensures Run(visited, hr, response.View()) == AddRun(machine, PopulatePackageInfo, old(response.View()))
      ensures Settled()
      ensures !Failed(hr) ==> if machine.cancelled then StopsAt(machine.progress, old(response.View()), response.View())
                              else Completes(old(response.View()), response.View())
      decreases 1, 4
    {
      ghost var whole := AddRun(machine, PopulatePackageInfo, response.View());
      AddEnds(machine, response.View());
      var current := Some(PopulatePackageInfo);
      while current.Some?
        invariant AddLeft(machine, whole, visited, current, response.View()) && Standing(current)
        decreases if current.Some? then AddRank(current.value) + 1 else 0
      {
        var returned;
        hr, returned, current := Round(current.value, whole);
        if returned {
          return;
        }
      }
      hr := S_OK;
    }

    method ProcessRequest() returns (hr: HResult)
      requires New()
      modifies this`packageInfo, this`visited, this`undone, response
      ensures var r := StartedReport(old(response.View()));
              Run(visited, hr, response.View())
              == match operationType
                 case Add => AddRun(machine, PopulatePackageInfo, r)
                 case Remove => RemoveRun(machine, PopulatePackageInfo, r)
      ensures operationType == Add ==> Settled()
      ensures operationType == Add && !Failed(hr) ==>
                var r := StartedReport(old(response.View()));
                if machine.cancelled then StopsAt(machine.progress, r, response.View()) else Completes(r, response.View())
      decreases if operationType == Add then 1 else 0, 5
    {
      response.Update(Started, 0.0);
      match operationType {
        case Add =>
          hr := ProcessAddRequest();
        case Remove =>
          hr := ProcessRemoveRequest();
      }
    }
  }
}
