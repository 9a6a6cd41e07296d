/**
 * The exec handlers of the gRPC server (internals/api/handlers/execs.go). The
 * store functions they call and `buildFilter` are not part of this model and are
 * passed in as functions; their answers are what the handlers see.
 */
module ExecHandlers {
  import opened Wrappers
  import opened Fields
  import opened Bson
  import opened Responses
  import opened TeacherHandlers

  /** A wire exec. Only its Id matters to the handlers; its other fields travel unchanged. */
  datatype Exec = Exec(id: string, others: Record)

  datatype ExecId = ExecId(id: string)

  datatype DeleteConfirmation = DeleteConfirmation(status: string, deletedIds: seq<string>)

  const DeletedStatus: string := "Execs successfully deleted"

  type ExecStore = seq<Exec> -> Result<seq<Exec>>

  // ----- AddExecs -----

  predicate HasPresetExecId(execs: seq<Exec>) {
    exists i :: 0 <= i < |execs| && execs[i].id != Zero
  }

  /** AddExecs: any exec with an Id refuses the batch; otherwise the store's outcome, a store error becoming Internal. */
  function AddExecs(req: seq<Exec>, addExecsToDb: ExecStore): (r: Response<seq<Exec>>)
    ensures HasPresetExecId(req) ==> r == Err(InvalidArgument, PresetIdMessage)
    ensures !HasPresetExecId(req) && addExecsToDb(req).Success? ==> r == Ok(addExecsToDb(req).value)
    ensures !HasPresetExecId(req) && addExecsToDb(req).Failure? ==> r == Err(Internal, addExecsToDb(req).error)
  {
    if exists i :: 0 <= i < |req| && req[i].id != Zero then Err(InvalidArgument, PresetIdMessage)
    else StoreResponse(addExecsToDb(req))
  }

  /** A refused batch never depends on the store: whatever the store would answer, the outcome is the same. */
  lemma AddExecsRefusesBeforeStore(req: seq<Exec>, store1: ExecStore, store2: ExecStore)
    requires exists i :: 0 <= i < |req| && req[i].id != Zero
    ensures AddExecs(req, store1) == AddExecs(req, store2)
    ensures AddExecs(req, store1).Err? && AddExecs(req, store1).code == InvalidArgument
  {
  }

  /** With no Id set, the batch reaches the store exactly as sent and a bad argument is never reported. */
  lemma AddExecsPassesBatch(req: seq<Exec>, addExecsToDb: ExecStore)
    requires forall i :: 0 <= i < |req| ==> req[i].id == Zero
    ensures AddExecs(req, addExecsToDb) == StoreResponse(addExecsToDb(req))
    ensures AddExecs(req, addExecsToDb).Err? ==> AddExecs(req, addExecsToDb).code == Internal
  {
  }

  // ----- GetExecs -----

  datatype GetExecsRequest = GetExecsRequest(exec: Option<Exec>, sortBy: seq<SortField>)

  type FilterBuilder = Option<Exec> -> Result<Filter>
  type ExecFinder = (SortOptions, Filter) -> Result<seq<Exec>>

  /**
   * GetExecs: a filter error is a bad argument and GetExecsFromDb is not called;
   * otherwise it is called with the filter and the sort options. `queried`
   * records whether the handler called GetExecsFromDb.
   */
  method GetExecs(req: GetExecsRequest, buildFilter: FilterBuilder, getExecsFromDb: ExecFinder)
    returns (r: Response<seq<Exec>>, ghost queried: bool)
    ensures buildFilter(req.exec).Failure? ==> r == Err(InvalidArgument, buildFilter(req.exec).error)
    ensures buildFilter(req.exec).Success? ==> r == StoreResponse(getExecsFromDb(SortOptionsOf(req.sortBy), buildFilter(req.exec).value))
    ensures queried <==> buildFilter(req.exec).Success?
  {
    queried := false;
    var filter := buildFilter(req.exec);
    if filter.Failure? {
      return Err(InvalidArgument, filter.error), queried;
    }
    var sortOptions := BuildSortOptions(req.sortBy);
    queried := true;
    var execs := getExecsFromDb(sortOptions, filter.value);
    if execs.Failure? {
      return Err(Internal, execs.error), queried;
    }
    r := Ok(execs.value);
  }

  // ----- UpdateExecs -----

  /** UpdateExecs: the request list goes to the store unchanged; only a store error is reported, as Internal. */
  function UpdateExecs(req: seq<Exec>, modifyExecsInDb: ExecStore): (r: Response<seq<Exec>>)
    ensures r.Ok? <==> modifyExecsInDb(req).Success?
    ensures r.Ok? ==> r.value == modifyExecsInDb(req).value
    ensures r.Err? ==> r.code == Internal && r.message == modifyExecsInDb(req).error
  {
    StoreResponse(modifyExecsInDb(req))
  }

  // ----- DeleteExecs -----

  /** The request ids, in order. */
  function RequestIds(ids: seq<ExecId>): seq<string> {
    seq(|ids|, i requires 0 <= i < |ids| => ids[i].id)
  }

  /** The id-collecting loop of DeleteExecs: the request ids, in order. */
  method CollectExecIds(ids: seq<ExecId>) returns (execIdsToDelete: seq<string>)
    ensures |execIdsToDelete| == |ids|
    ensures forall i :: 0 <= i < |ids| ==> execIdsToDelete[i] == ids[i].id
    ensures execIdsToDelete == RequestIds(ids)
  {
    execIdsToDelete := [];
    for i := 0 to |ids|
      invariant |execIdsToDelete| == i
      invariant forall k :: 0 <= k < i ==> execIdsToDelete[k] == ids[k].id
    {
      execIdsToDelete := execIdsToDelete + [ids[i].id];
    }
  }

  /**
   * DeleteExecs: the store receives the request ids in order; on success the
   * confirmation carries the fixed status and exactly the ids the store reports.
   */
  method DeleteExecs(ids: seq<ExecId>, deleteExecsFromDb: seq<string> -> Result<seq<string>>)
    returns (r: Response<DeleteConfirmation>)
    ensures deleteExecsFromDb(RequestIds(ids)).Failure? ==> r == Err(Internal, deleteExecsFromDb(RequestIds(ids)).error)
    ensures deleteExecsFromDb(RequestIds(ids)).Success? ==>
              r == Ok(DeleteConfirmation(DeletedStatus, deleteExecsFromDb(RequestIds(ids)).value))
  {
    var execIdsToDelete := CollectExecIds(ids);
    var deletedIds := deleteExecsFromDb(execIdsToDelete);
    if deletedIds.Failure? {
      return Err(Internal, deletedIds.error);
    }
    r := Ok(DeleteConfirmation(DeletedStatus, deletedIds.value));
  }
}
