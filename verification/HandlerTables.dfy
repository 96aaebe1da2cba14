/**
 The two tables of MsixRequest.cpp: which handler comes after which, and what a failure leads to.
 */
module HandlerTables {
  import opened Wrappers

  /** A 32-bit status; the negative ones are the failures. */
  type HResult = h: int | -0x8000_0000 <= h < 0x8000_0000

  const S_OK: HResult := 0

  predicate Failed(hr: HResult) {
    hr < 0
  }

  datatype Handler =
    | PopulatePackageInfo
    | ValidateArchitecture
    | ValidateTargetDeviceFamily
    | ProcessPotentialUpdate
    | Extractor
    | PrepareDevirtualizedRegistry
    | VirtualFileHandler
    | WriteDevirtualizedRegistry
    | PSFScriptExecuter
    | StartMenuLink
    | AddRemovePrograms
    | Protocol
    | ComInterface
    | ComServer
    | StartupTask
    | FileTypeAssociation
    | FirewallRules
    | AutoPlay
    | AppExecutionAlias
    | InstallComplete
    | ErrorHandler

  datatype ErrorHandlingMode = IgnoreAndProcessNextHandler | ExecuteErrorHandler | ReturnError

  datatype HandlerInfo = HandlerInfo(nextHandler: Option<Handler>, errorMode: ErrorHandlingMode, errorHandler: Option<Handler>)

  function Returning(next: Handler): HandlerInfo {
    HandlerInfo(Some(next), ReturnError, None)
  }

  function RollingBack(next: Handler): HandlerInfo {
    HandlerInfo(Some(next), ExecuteErrorHandler, Some(ErrorHandler))
  }

  function Ignoring(next: Option<Handler>): HandlerInfo {
    HandlerInfo(next, IgnoreAndProcessNextHandler, None)
  }

  function AddHandlers(h: Handler): HandlerInfo {
    match h
    case PopulatePackageInfo => Returning(ValidateArchitecture)
    case ValidateArchitecture => Returning(ValidateTargetDeviceFamily)
    case ValidateTargetDeviceFamily => Returning(ProcessPotentialUpdate)
    case ProcessPotentialUpdate => Returning(Extractor)
    case Extractor => RollingBack(PrepareDevirtualizedRegistry)
    case PrepareDevirtualizedRegistry => RollingBack(VirtualFileHandler)
    case VirtualFileHandler => RollingBack(WriteDevirtualizedRegistry)
    case WriteDevirtualizedRegistry => RollingBack(PSFScriptExecuter)
    case PSFScriptExecuter => RollingBack(StartMenuLink)
    case StartMenuLink => RollingBack(AddRemovePrograms)
    case AddRemovePrograms => RollingBack(Protocol)
    case Protocol => RollingBack(ComInterface)
    case ComInterface => RollingBack(ComServer)
    case ComServer => RollingBack(StartupTask)
    case StartupTask => RollingBack(FileTypeAssociation)
    case FileTypeAssociation => RollingBack(FirewallRules)
    case FirewallRules => RollingBack(AutoPlay)
    case AutoPlay => RollingBack(AppExecutionAlias)
    case AppExecutionAlias => RollingBack(InstallComplete)
    case InstallComplete => HandlerInfo(None, ExecuteErrorHandler, Some(ErrorHandler))
    case ErrorHandler => HandlerInfo(None, ReturnError, None)
  }

  /** Looking up any other name in the source's table gives an entry without a create function. */
  function RemoveHandlers(h: Handler): Option<HandlerInfo> {
    match h
    case PopulatePackageInfo => Some(Returning(StartMenuLink))
    case StartMenuLink => Some(Ignoring(Some(AddRemovePrograms)))
    case AddRemovePrograms => Some(Ignoring(Some(PrepareDevirtualizedRegistry)))
    case PrepareDevirtualizedRegistry => Some(Ignoring(Some(Protocol)))
    case Protocol => Some(Ignoring(Some(ComInterface)))
    case ComInterface => Some(Ignoring(Some(ComServer)))
    case ComServer => Some(Ignoring(Some(StartupTask)))
    case StartupTask => Some(Ignoring(Some(FileTypeAssociation)))
    case FileTypeAssociation => Some(Ignoring(Some(FirewallRules)))
    case FirewallRules => Some(Ignoring(Some(AutoPlay)))
    case AutoPlay => Some(Ignoring(Some(AppExecutionAlias)))
    case AppExecutionAlias => Some(Ignoring(Some(VirtualFileHandler)))
    case VirtualFileHandler => Some(Ignoring(Some(WriteDevirtualizedRegistry)))
    case WriteDevirtualizedRegistry => Some(Ignoring(Some(Extractor)))
    case Extractor => Some(Ignoring(None))
    case _ => None
  }

  /** The handlers that override ExecuteForRemoveRequest with work of their own. */
  predicate HasUndo(h: Handler) {
    match h
    case Extractor | PrepareDevirtualizedRegistry | VirtualFileHandler | WriteDevirtualizedRegistry => true
    case StartMenuLink | AddRemovePrograms | Protocol | ComInterface | ComServer | StartupTask => true
    case FileTypeAssociation | FirewallRules | AutoPlay | AppExecutionAlias => true
    case _ => false
  }

  /** How many more handlers an add request can visit after this one. */
  function AddRank(h: Handler): nat {
    match h
    case PopulatePackageInfo => 20
    case ValidateArchitecture => 19
    case ValidateTargetDeviceFamily => 18
    case ProcessPotentialUpdate => 17
    case Extractor => 16
    case PrepareDevirtualizedRegistry => 15
    case VirtualFileHandler => 14
    case WriteDevirtualizedRegistry => 13
    case PSFScriptExecuter => 12
    case StartMenuLink => 11
    case AddRemovePrograms => 10
    case Protocol => 9
    case ComInterface => 8
    case ComServer => 7
    case StartupTask => 6
    case FileTypeAssociation => 5
    case FirewallRules => 4
    case AutoPlay => 3
    case AppExecutionAlias => 2
    case InstallComplete => 1
    case ErrorHandler => 0
  }

  /** How many more handlers a remove request can visit after this one. */
  function RemoveRank(h: Handler): nat {
    match h
    case PopulatePackageInfo => 14
    case StartMenuLink => 13
    case AddRemovePrograms => 12
    case PrepareDevirtualizedRegistry => 11
    case Protocol => 10
    case ComInterface => 9
    case ComServer => 8
    case StartupTask => 7
    case FileTypeAssociation => 6
    case FirewallRules => 5
    case AutoPlay => 4
    case AppExecutionAlias => 3
    case VirtualFileHandler => 2
    case WriteDevirtualizedRegistry => 1
    case _ => 0
  }

  /** Both ways on from a handler go down. */
  lemma AddRankFalls(h: Handler)
    ensures var info := AddHandlers(h);
            && (info.nextHandler.Some? ==> AddRank(info.nextHandler.value) < AddRank(h))
            && (info.errorHandler.Some? ==> AddRank(info.errorHandler.value) < AddRank(h))
            && (info.errorMode == ExecuteErrorHandler ==> info.errorHandler == Some(ErrorHandler))
  {
  }

  /** The chain stays inside the table, going down one at a time. */
  lemma RemoveRankFalls(h: Handler)
    requires RemoveHandlers(h).Some?
    ensures var info := RemoveHandlers(h).value;
            && (info.nextHandler.Some? ==>
                  && RemoveHandlers(info.nextHandler.value).Some?
                  && RemoveRank(h) == RemoveRank(info.nextHandler.value) + 1)
            && (info.nextHandler.None? ==> h == Extractor)
  {
  }
}
