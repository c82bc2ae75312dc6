/** The exporter client: its configuration, the export task it enqueues, the
    loop that polls the task until it settles, and the calls that download the
    resulting archive and pick text out of it. The remote service is not
    called: its replies are given to the model as a Service value. */
module Exporter {
  import opened Outcomes
  import Uuid
  import Schemas
  import Selection

  /** One key of a JavaScript options object: not there at all, there with the
      value `undefined`, or there with a value. `Object.assign` and object
      spread copy a key that is there with `undefined` like any other. */
  datatype Field<+T> = Absent | Undefined | Given(value: T)

  /** `collectionViewExportType`. */
  datatype ViewType = CurrentView | All

  /** The options the caller may pass, and the merged options the client keeps. */
  datatype Config = Config(
    recursive: Field<bool>,
    timeZone: Field<string>,
    locale: Field<string>,
    collectionViewExportType: Field<ViewType>,
    pollInterval: Field<int>)

  /** `defaultConfig`: there is no default for `recursive`. */
  const DefaultConfig := Config(Absent, Given("UTC"), Given("en"), Given(All), Given(1000))

  /** A caller's options object with no key set. */
  const NoOverrides := Config(Absent, Absent, Absent, Absent, Absent)

  /** What `Object.assign` leaves under one key when `source` is copied over
      `target`: the source's entry whenever the source has the key. */
  function Assign<T>(target: Field<T>, source: Field<T>): (r: Field<T>)
    ensures !source.Absent? ==> r == source
    ensures source.Absent? ==> r == target
    ensures r.Absent? <==> target.Absent? && source.Absent?
  {
    if source.Absent? then target else source
  }

  /** `Object.assign({}, defaultConfig, config)`, with `None` for a missing
      `config` argument. Every key the caller sets wins, even when set to
      `undefined`; every key the caller leaves out keeps its default. */
  function Merge(overrides: Option<Config>): (c: Config)
    ensures var o := if overrides.Some? then overrides.value else NoOverrides;
      && c.recursive == o.recursive
      && (o.timeZone == Absent ==> c.timeZone == Given("UTC"))
      && (o.timeZone != Absent ==> c.timeZone == o.timeZone)
      && (o.locale == Absent ==> c.locale == Given("en"))
      && (o.locale != Absent ==> c.locale == o.locale)
      && (o.collectionViewExportType == Absent ==> c.collectionViewExportType == Given(All))
      && (o.collectionViewExportType != Absent ==> c.collectionViewExportType == o.collectionViewExportType)
      && (o.pollInterval == Absent ==> c.pollInterval == Given(1000))
      && (o.pollInterval != Absent ==> c.pollInterval == o.pollInterval)
  {
    var o := if overrides.Some? then overrides.value else NoOverrides;
    Config(
      Assign(DefaultConfig.recursive, o.recursive),
      Assign(DefaultConfig.timeZone, o.timeZone),
      Assign(DefaultConfig.locale, o.locale),
      Assign(DefaultConfig.collectionViewExportType, o.collectionViewExportType),
      Assign(DefaultConfig.pollInterval, o.pollInterval))
  }

  /** Merging is stable: laying a merged configuration over the defaults once
      more changes nothing, and leaving the argument out is the same as
      passing an empty object, which gives the defaults. */
  lemma MergeStable(overrides: Option<Config>)
    ensures Merge(Some(Merge(overrides))) == Merge(overrides)
    ensures Merge(None) == Merge(Some(NoOverrides)) == DefaultConfig
  {
  }

  /** `exportOptions` of the enqueued task: the fixed export type followed by
      every merged key except `recursive` (so `pollInterval` is sent too). */
  datatype ExportOptions = ExportOptions(
    exportType: string,
    timeZone: Field<string>,
    locale: Field<string>,
    collectionViewExportType: Field<ViewType>,
    pollInterval: Field<int>)

  /** The body posted to `enqueueTask`. */
  datatype TaskRequest = TaskRequest(
    eventName: string,
    blockId: string,
    recursive: bool,
    shouldExportComments: bool,
    exportOptions: ExportOptions)

  /** Puts `recursive` back beside the keys that were spread into the export
      options: the inverse of `const { recursive, ...config } = this.config`. */
  function WithRecursive(options: ExportOptions, recursive: Field<bool>): Config {
    Config(recursive, options.timeZone, options.locale, options.collectionViewExportType, options.pollInterval)
  }

  /** A task as one poll observes it: `task.state` and `task.status.exportURL`. */
  datatype Task = Task(state: string, exportURL: Option<string>)

  /** What one poll decides. */
  datatype Step = Resolve(url: string) | PollAgain | Reject

  /** The decision of one poll: a successful task with a truthy (present and
      non-empty) URL resolves with it, a task not started or in progress is
      polled again, and every other task rejects, a successful one without a
      URL included. */
  function Classify(task: Task): (s: Step)
    ensures s.Resolve? <==> task.state == "success" && task.exportURL.Some? && task.exportURL.value != ""
    ensures s.Resolve? ==> s.url == task.exportURL.value
    ensures s.PollAgain? <==> task.state == "in_progress" || task.state == "not_started"
  {
    if task.state == "success" && task.exportURL.Some? && task.exportURL.value != "" then
      Resolve(task.exportURL.value)
    else if task.state == "in_progress" || task.state == "not_started" then
      PollAgain
    else
      Reject
  }

  /** The text before the task id in the rejection of a failed task. */
  const TaskFailedPrefix := "Export task failed: "

  /** The rejection of a failed task: the prefix, the task id and a full stop,
      so the task id can be read back from the message. */
  function TaskFailedMessage(taskId: string): (m: string)
    ensures |m| == |TaskFailedPrefix| + |taskId| + 1
    ensures m[..|TaskFailedPrefix|] == TaskFailedPrefix && m[|m| - 1] == '.'
    ensures m[|TaskFailedPrefix|..|m| - 1] == taskId
  {
    TaskFailedPrefix + taskId + "."
  }

  /** The index of the first observation that is not "poll again", or the
      number of observations when there is none. */
  function SettleIndex(observed: seq<Task>): (k: nat)
    ensures k <= |observed|
    ensures forall j :: 0 <= j < k ==> Classify(observed[j]).PollAgain?
    ensures k < |observed| ==> !Classify(observed[k]).PollAgain?
  {
    if observed == [] || !Classify(observed[0]).PollAgain? then 0
    else SettleIndex(observed[1..]) + 1
  }

  /** A settle index is determined by its two defining properties. */
  lemma SettleIndexUnique(observed: seq<Task>, k: nat)
    requires k <= |observed|
    requires forall j :: 0 <= j < k ==> Classify(observed[j]).PollAgain?
    requires k < |observed| ==> !Classify(observed[k]).PollAgain?
    ensures SettleIndex(observed) == k
  {
  }

  /** How `pollTask` settles on the given observations: decided by the first
      one that is not "poll again"; Pending when every one of them is. */
  function PollOutcome(taskId: string, observed: seq<Task>): (r: Settled<string>)
    ensures r.Pending? <==> forall j :: 0 <= j < |observed| ==> Classify(observed[j]).PollAgain?
    ensures r.Resolved? ==> r.value != []
    ensures r.Rejected? ==> r.reason == Reason(TaskFailedMessage(taskId))
    ensures var k := SettleIndex(observed);
      k < |observed| ==> (
        && (r.Resolved? <==> Classify(observed[k]).Resolve?)
        && (Classify(observed[k]).Resolve? ==> r.value == observed[k].exportURL.value))
  {
    var k := SettleIndex(observed);
    if k == |observed| then Pending
    else match Classify(observed[k])
      case Resolve(url) => Resolved(url)
      case _ => Rejected(Reason(TaskFailedMessage(taskId)))
  }

  /** How many polls `pollTask` makes on the given observations: up to and
      including the settling one, and none after it. */
  function PollCount(observed: seq<Task>): (n: nat)
    ensures n <= |observed|
    ensures forall j :: 0 <= j < n - 1 ==> Classify(observed[j]).PollAgain?
    ensures n < |observed| ==> n > 0 && !Classify(observed[n - 1]).PollAgain?
  {
    var k := SettleIndex(observed);
    if k < |observed| then k + 1 else |observed|
  }

  /** Observations after the settling one are never looked at. */
  lemma {:induction false} PollIgnoresLaterObservations(taskId: string, observed: seq<Task>, later: seq<Task>)
    requires !PollOutcome(taskId, observed).Pending?
    ensures PollOutcome(taskId, observed + later) == PollOutcome(taskId, observed)
    ensures PollCount(observed + later) == PollCount(observed)
  {
    var k := SettleIndex(observed);
    var all := observed + later;
    assert forall j :: 0 <= j <= k ==> all[j] == observed[j];
    SettleIndexUnique(all, k);
  }

  /** After observations that all say "poll again", polling goes on exactly
      as it would have from scratch on the observations that follow. */
  lemma {:induction false} PollContinuesAfterPending(taskId: string, observed: seq<Task>, later: seq<Task>)
    requires PollOutcome(taskId, observed).Pending?
    ensures PollOutcome(taskId, observed + later) == PollOutcome(taskId, later)
    ensures PollCount(observed + later) == |observed| + PollCount(later)
  {
    var k := SettleIndex(later);
    var all := observed + later;
    assert forall j :: 0 <= j < |observed| ==> all[j] == observed[j];
    assert forall j :: 0 <= j < |later| ==> all[|observed| + j] == later[j];
    SettleIndexUnique(all, |observed| + k);
  }

  /** Two tasks still in progress and then a success with a URL: resolved
      with that URL after exactly three polls; a failed task: rejected after
      one poll. */
  lemma PollExamples(taskId: string, url: string, later: seq<Task>)
    requires url != []
    ensures var observed := [Task("in_progress", None), Task("in_progress", None), Task("success", Some(url))];
      && PollOutcome(taskId, observed + later) == Resolved(url)
      && PollCount(observed + later) == 3
    ensures PollOutcome(taskId, [Task("failed", None)] + later) == Rejected(Reason("Export task failed: " + taskId + "."))
    ensures PollCount([Task("failed", None)] + later) == 1
  {
    var observed := [Task("in_progress", None), Task("in_progress", None), Task("success", Some(url))];
    assert SettleIndex(observed[2..]) == 0;
    assert SettleIndex(observed[1..]) == 1;
    PollIgnoresLaterObservations(taskId, observed, later);
    PollIgnoresLaterObservations(taskId, [Task("failed", None)], later);
  }

  /** The replies of the remote service, given to the model instead of being
      fetched: the task id `enqueueTask` answers, the task as each successive
      `getTasks` call finds it, and the archive served at each URL. */
  datatype Service = Service(taskId: string, observed: seq<Task>, archives: map<string, Selection.Archive>)

  /** `getZip` as a value: poll, then download the archive at the URL the
      task resolved with; a URL that serves nothing is a transport error. */
  function ZipOutcome(service: Service): (r: Settled<Selection.Archive>)
    ensures r.Pending? <==> PollOutcome(service.taskId, service.observed).Pending?
    ensures r.Resolved? <==> (
      && PollOutcome(service.taskId, service.observed).Resolved?
      && PollOutcome(service.taskId, service.observed).value in service.archives)
    ensures r.Resolved? ==> r.value == service.archives[PollOutcome(service.taskId, service.observed).value]
    ensures PollOutcome(service.taskId, service.observed).Rejected? ==>
      r == Rejected(PollOutcome(service.taskId, service.observed).reason)
    ensures (
      && PollOutcome(service.taskId, service.observed).Resolved?
      && PollOutcome(service.taskId, service.observed).value !in service.archives) ==> r == Rejected(TransportError)
  {
    match PollOutcome(service.taskId, service.observed)
    case Resolved(url) => if url in service.archives then Resolved(service.archives[url]) else Rejected(TransportError)
    case Rejected(e) => Rejected(e)
    case Pending => Pending
  }

  /** `zip.then(select)`: a selection runs only on a downloaded archive; a
      rejection or a pending poll passes through unchanged. */
  function Then<T>(zip: Settled<Selection.Archive>, select: Selection.Archive -> Settled<T>): (r: Settled<T>)
    ensures zip.Resolved? ==> r == select(zip.value)
    ensures zip.Rejected? ==> r == Rejected(zip.reason)
    ensures zip.Pending? ==> r.Pending?
  {
    match zip
    case Resolved(entries) => select(entries)
    case Rejected(e) => Rejected(e)
    case Pending => Pending
  }

  /** A task that succeeds at the first poll with a URL serving a single
      Markdown entry: exporting all Markdown yields that entry's trimmed text. */
  lemma ExportOneMarkdownEntry(taskId: string, url: string, name: string, text: string, later: seq<Task>)
    requires url != [] && Selection.EndsWith(name, ".md")
    ensures var service := Service(taskId, [Task("success", Some(url))] + later, map[url := [Selection.Entry(name, text)]]);
      Then(ZipOutcome(service), entries => Resolved(Selection.AllMdStrings(entries))) == Resolved([Selection.Trim(text)])
  {
    PollIgnoresLaterObservations(taskId, [Task("success", Some(url))], later);
    var service := Service(taskId, [Task("success", Some(url))] + later, map[url := [Selection.Entry(name, text)]]);
    var entries := [Selection.Entry(name, text)];
    assert SettleIndex([Task("success", Some(url))]) == 0;
    assert ZipOutcome(service) == Resolved(entries);
    assert Selection.MatchIndices(entries, Selection.IsMd) == [0] + Selection.Shift([]);
    assert Selection.Shift([]) == [];
    var all := Selection.AllMdStrings(entries);
    assert |all| == 1 && all[0] == Selection.Trim(text);
    assert all == [Selection.Trim(text)];
  }

  /** A page id that passed the argument schema and has at least 20
      characters (32 for a real page) is sent with dashes at 8, 13, 18 and
      23, and dropping its dashes gives the id back. */
  lemma ValidatedIdIsGrouped(id: string)
    requires Schemas.ParseRequest(map["id" := Schemas.Str(id)]).Parsed?
    requires |id| >= 20
    ensures var blockId := Uuid.ToUuid(id);
      && |blockId| == |id| + 4
      && blockId[8] == '-' && blockId[13] == '-' && blockId[18] == '-' && blockId[23] == '-'
      && Uuid.StripDashes(blockId) == id
  {
    assert forall i :: 0 <= i < |id| ==> Schemas.IsPageIdChar(id[i]);
    assert '-' !in id by {
      forall i | 0 <= i < |id| ensures id[i] != '-' {
        assert Schemas.IsPageIdChar(id[i]);
      }
    }
    Uuid.StripDashesOfDashFree(id);
    Uuid.ToUuidGroups(id);
    Uuid.StripDashesOfToUuid(id);
  }

  /** The exporter: a client whose configuration is merged once, in the
      constructor, and never changed. */
  class NotionExporter {
    /** The `Cookie` header every request carries. */
    const cookie: string
    /** The merged configuration. */
    const config: Config

    /** `new NotionExporter(tokenV2, fileToken, config)`. */
    constructor(tokenV2: string, fileToken: string, overrides: Option<Config>)
      ensures cookie == "token_v2=" + tokenV2 + ";file_token=" + fileToken
      ensures config == Merge(overrides)
    {
      cookie := "token_v2=" + tokenV2 + ";file_token=" + fileToken;
      config := Merge(overrides);
    }

    /** The body `getTaskId` posts to `enqueueTask`: an `exportBlock` task on
      the normalised block id, `recursive` as a boolean (false unless the
      merged value is `true`), comments never exported, and export options
      that are the markdown export type plus every other merged key. */
    function EnqueueBody(id: string): (r: TaskRequest)
      ensures r.eventName == "exportBlock" && !r.shouldExportComments
      ensures r.blockId == Uuid.ToUuid(id)
      ensures r.recursive <==> config.recursive == Given(true)
      ensures r.exportOptions.exportType == "markdown"
      ensures WithRecursive(r.exportOptions, config.recursive) == config
    {
      TaskRequest(
        "exportBlock",
        Uuid.ToUuid(id),
        config.recursive == Given(true),
        false,
        ExportOptions("markdown", config.timeZone, config.locale, config.collectionViewExportType, config.pollInterval))
    }

    /** The wait before each poll: `this.config.pollInterval ||
        defaultConfig.pollInterval`, so a missing or zero interval waits 1000. */
    function Interval(): (ms: int)
      ensures ms != 0
      ensures config.pollInterval.Given? && config.pollInterval.value != 0 ==> ms == config.pollInterval.value
      ensures !(config.pollInterval.Given? && config.pollInterval.value != 0) ==> ms == 1000
    {
      if config.pollInterval.Given? && config.pollInterval.value != 0 then config.pollInterval.value
      else DefaultConfig.pollInterval.value
    }

    /** `pollTask(taskId)` on the given observations: waits, polls, and either
        settles or schedules the next wait; `waits` logs every wait in order.
        It stops at the settling observation, or when the observations run
        out, where the client itself would go on polling. */
    method PollTask(taskId: string, observed: seq<Task>) returns (outcome: Settled<string>, waits: seq<int>)
      ensures outcome == PollOutcome(taskId, observed)
      ensures |waits| == PollCount(observed)
      ensures forall j :: 0 <= j < |waits| ==> waits[j] == Interval()
    {
      var interval := Interval();
      waits := [];
      var i := 0;
      while i < |observed|
        invariant i <= SettleIndex(observed)
        invariant |waits| == i
        invariant forall j :: 0 <= j < i ==> waits[j] == interval
      {
        waits := waits + [interval];
        match Classify(observed[i])
        case Resolve(url) =>
          outcome := Resolved(url);
          return;
        case PollAgain =>
          i := i + 1;
        case Reject =>
          outcome := Rejected(Reason(TaskFailedMessage(taskId)));
          return;
      }
      outcome := Pending;
    }

    /** `getZipUrl(id)`: enqueue the export of `id`, then poll the task id the
        service answers with. */
    method GetZipUrl(id: string, service: Service) returns (sent: TaskRequest, url: Settled<string>, waits: seq<int>)
      ensures sent == EnqueueBody(id)
      ensures url == PollOutcome(service.taskId, service.observed)
      ensures |waits| == PollCount(service.observed)
      ensures forall j :: 0 <= j < |waits| ==> waits[j] == Interval()
    {
      sent := EnqueueBody(id);
      url, waits := PollTask(service.taskId, service.observed);
    }

    /** `getZip(id)`: the archive at the URL the task resolved with. */
    method GetZip(id: string, service: Service) returns (zip: Settled<Selection.Archive>)
      ensures zip == ZipOutcome(service)
    {
      var sent, url, waits := GetZipUrl(id, service);
      match url
      case Resolved(u) =>
        zip := if u in service.archives then Resolved(service.archives[u]) else Rejected(TransportError);
      case Rejected(e) =>
        zip := Rejected(e);
      case Pending =>
        zip := Pending;
    }

    /** `getFileString(id, predicate)`. */
    method GetFileString(id: string, pred: Selection.Entry -> bool, service: Service) returns (r: Settled<string>)
      ensures r == Then(ZipOutcome(service), entries => Selection.FileString(entries, pred))
    {
      var zip := GetZip(id, service);
      r := Then(zip, entries => Selection.FileString(entries, pred));
    }

    /** `getAllFileString(id, predicate)`. */
    method GetAllFileString(id: string, pred: Selection.Entry -> bool, service: Service) returns (r: Settled<seq<string>>)
      ensures r == Then(ZipOutcome(service), entries => Resolved(Selection.AllFileStrings(entries, pred)))
    {
      var zip := GetZip(id, service);
      r := Then(zip, entries => Resolved(Selection.AllFileStrings(entries, pred)));
    }

    /** `getMdString(id)`. */
    method GetMdString(id: string, service: Service) returns (r: Settled<string>)
      ensures r == Then(ZipOutcome(service), Selection.MdString)
    {
      r := GetFileString(id, Selection.IsMd, service);
    }

    /** `getCsvString(id, onlyCurrentView)`. */
    method GetCsvString(id: string, onlyCurrentView: Option<bool>, service: Service) returns (r: Settled<string>)
      ensures r == Then(ZipOutcome(service), entries => Selection.CsvString(entries, onlyCurrentView))
    {
      r := GetFileString(id, e => Selection.IsCsv(onlyCurrentView, e), service);
    }

    /** `getAllMdString(id)`. */
    method GetAllMdString(id: string, service: Service) returns (r: Settled<seq<string>>)
      ensures r == Then(ZipOutcome(service), entries => Resolved(Selection.AllMdStrings(entries)))
    {
      r := GetAllFileString(id, Selection.IsMd, service);
    }
  }
}
