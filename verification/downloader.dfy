/**
 * The export/download worker `MixamoDownloader`: the submit-and-poll export of one
 * payload, the download of the exported file, the id/description map of a search
 * query, and the item loop of `run` with its progress counter `task`.
 *
 * Every network reply is an input (a raised request included), the user's Stop
 * button is an input read before each item, and the disk is the set of files that
 * exist, passed in and handed back.
 */
module Downloader {
  import opened Wrappers
  import opened JsonValues
  import opened OrderedMaps
  import opened Payloads

  /** The download mode chosen in the UI ("tpose", "all" or "query"). */
  datatype Mode = TPose | All | Query

  /** The reply to an export submission: it raised, or it came back with a status code. */
  datatype SubmitReply = SubmitRaised | SubmitStatus(code: int)

  /** The reply to one poll of the monitor endpoint; `body` is `None` when it is not JSON. */
  datatype PollReply = PollRaised | PollHttp(code: int, body: Option<Json>)

  /**
   * How `_download_file` ends: the file is written, or one of the exceptions. A timeout or
   * a failed request ends it before the file is opened. An `IOError` raised by `open` leaves
   * no file. One raised by the write comes after `open(file_path, 'wb')` has created or
   * emptied the file, so the file then exists.
   */
  datatype DownloadReply = Saved | TimedOut | RequestFailed | OpenFailed | WriteFailed | OtherError

  /** The download outcomes after which the output file exists (complete or not). */
  predicate LeavesFile(reply: DownloadReply)
  {
    reply == Saved || reply == WriteFailed
  }

  /** The replies one export sees: the submission, the resubmission after a 429, and the polls in order. */
  datatype ExportReplies = ExportReplies(submit: SubmitReply, resubmit: SubmitReply, polls: seq<PollReply>)

  /** The reply to a request for one page of search results. */
  datatype PageReply = PageRaised | PageHttp(code: int, body: Option<Json>)

  /**
   * Everything one item of the `run` loop depends on: whether Stop was pressed, the
   * product reply, whether creating the output directory raises, the export replies
   * and the download outcome.
   */
  datatype ItemReplies = ItemReplies(
    stop: bool, product: ProductReply, directoryFails: bool, exportReplies: ExportReplies, download: DownloadReply)

  /** The file `{dir}/{name}.fbx`, or `{name}.fbx` in the working directory when `dir` is empty. */
  datatype FilePath = FilePath(dir: string, name: Json)

  /** What `run` did with one item. */
  datatype ItemOutcome =
    | NoPayload
    | DirectoryFailed
    | AlreadyPresent(file: FilePath)
    | Exported(file: FilePath, link: Json)

  /** `MAX_RETRIES`: the most polls one export makes. */
  const MaxRetries: nat := 120

  const Completed: Json := JStr("completed")
  const Failed: Json := JStr("failed")

  // ---------------------------------------------------------------------------
  // export_animation

  /** The i-th poll reply; polls beyond the given ones raise. */
  function PollAt(polls: seq<PollReply>, i: nat): PollReply
  {
    if i < |polls| then polls[i] else PollRaised
  }

  /** The status a poll reports: only a 200 whose body is a JSON object sets `status`. */
  function PollStatus(p: PollReply): Option<Json>
  {
    if p.PollHttp? && p.code == 200 && p.body.Some? && p.body.value.JObj? then Some(Get(p.body.value.fields, "status"))
    else None
  }

  /** A poll that ends the waiting: the job is reported completed or failed. */
  predicate Decisive(p: PollReply)
  {
    PollStatus(p) == Some(Completed) || PollStatus(p) == Some(Failed)
  }

  /** The index of the first decisive poll at or after `from`, or `MaxRetries` when none of the allowed polls is. */
  function FirstDecisive(polls: seq<PollReply>, from: nat): (k: nat)
    requires from <= MaxRetries
    ensures from <= k <= MaxRetries
    ensures k < MaxRetries ==> Decisive(PollAt(polls, k))
    ensures forall j :: from <= j < k ==> !Decisive(PollAt(polls, j))
    decreases MaxRetries - from
  {
    if from == MaxRetries then MaxRetries
    else if Decisive(PollAt(polls, from)) then from
    else FirstDecisive(polls, from + 1)
  }

  /** The status code the export proceeds with: the resubmission's after a 429, the submission's otherwise. */
  function FinalSubmit(r: ExportReplies): SubmitReply
  {
    if r.submit == SubmitStatus(429) then r.resubmit else r.submit
  }

  /** The export job was accepted: the final submission answered 200 or 202. */
  predicate Accepted(r: ExportReplies)
  {
    FinalSubmit(r) == SubmitStatus(200) || FinalSubmit(r) == SubmitStatus(202)
  }

  /** How many polls the export makes. */
  function PollsMade(r: ExportReplies): nat
  {
    if !Accepted(r) then 0
    else
      var k := FirstDecisive(r.polls, 0);
      if k < MaxRetries then k + 1 else MaxRetries
  }

  /**
   * The download link: the `job_result` of the first decisive poll when it reports
   * completion within the first `MaxRetries - 1` polls; `null` (Python's `None`) otherwise.
   */
  function ExportLink(r: ExportReplies): Json
  {
    if !Accepted(r) then JNull
    else
      var k := FirstDecisive(r.polls, 0);
      if k < MaxRetries - 1 && PollStatus(PollAt(r.polls, k)) == Some(Completed)
      then Get(PollAt(r.polls, k).body.value.fields, "job_result")
      else JNull
  }

  /**
   * `export_animation`: submit the payload (once more after a 429), then poll the monitor
   * until it reports completion or failure or `MaxRetries` polls have been made. Every poll
   * counts against the budget, whatever its outcome.
   */
  method ExportAnimation(r: ExportReplies) returns (link: Json, posts: nat, polls: nat)
    ensures posts == if r.submit == SubmitStatus(429) then 2 else 1
    ensures polls == PollsMade(r) && polls <= MaxRetries
    ensures link == ExportLink(r)
  {
    posts := 1;
    polls := 0;
    link := JNull;
    var response := r.submit;
    if response.SubmitRaised? {
      return;
    }
    if response.code == 429 {
      posts := 2;
      response := r.resubmit;
      if response.SubmitRaised? || response.code == 429 {
        return;
      }
    }
    if response.code != 200 && response.code != 202 {
      return;
    }
    ghost var k := FirstDecisive(r.polls, 0);
    var status := JNull;
    var retryCount := 0;
    var result: Record := map[];
    while status != Completed && retryCount < MaxRetries
      invariant 0 <= retryCount <= MaxRetries
      invariant status != Completed ==> retryCount <= k
      invariant status == Completed ==> retryCount == k + 1 && PollStatus(PollAt(r.polls, k)) == Some(Completed)
                                        && result == PollAt(r.polls, k).body.value.fields
      decreases MaxRetries - retryCount
    {
      retryCount := retryCount + 1;
      var reply := PollAt(r.polls, retryCount - 1);
      if reply.PollRaised? || reply.code == 429 || reply.code != 200 || reply.body.None? || !reply.body.value.JObj? {
        continue;
      }
      result := reply.body.value.fields;
      status := Get(result, "status");
      if status == Failed {
        polls := retryCount;
        return;
      }
    }
    polls := retryCount;
    if retryCount >= MaxRetries {
      return;
    }
    link := Get(result, "job_result");
  }

  /** A job that reports failure yields no link, whenever it does so. */
  lemma FailureGivesNoLink(r: ExportReplies)
    requires Accepted(r)
    requires FirstDecisive(r.polls, 0) < MaxRetries && PollStatus(PollAt(r.polls, FirstDecisive(r.polls, 0))) == Some(Failed)
    ensures ExportLink(r) == JNull
  {
  }

  /** Completion reported on the 120th poll is treated as a time-out: no link, after exactly 120 polls. */
  lemma CompletionOnLastPollTimesOut(r: ExportReplies)
    requires Accepted(r)
    requires forall j :: 0 <= j < MaxRetries - 1 ==> !Decisive(PollAt(r.polls, j))
    requires PollStatus(PollAt(r.polls, MaxRetries - 1)) == Some(Completed)
    requires Get(PollAt(r.polls, MaxRetries - 1).body.value.fields, "job_result").Truthy()
    ensures ExportLink(r) == JNull && PollsMade(r) == MaxRetries
  {
    FirstDecisiveIs(r.polls, MaxRetries - 1);
  }

  /** Completion reported on an earlier poll gives that poll's `job_result`. */
  lemma EarlyCompletionGivesLink(r: ExportReplies, k: nat)
    requires Accepted(r) && k < MaxRetries - 1
    requires forall j :: 0 <= j < k ==> !Decisive(PollAt(r.polls, j))
    requires PollStatus(PollAt(r.polls, k)) == Some(Completed)
    ensures ExportLink(r) == Get(PollAt(r.polls, k).body.value.fields, "job_result") && PollsMade(r) == k + 1
  {
    FirstDecisiveIs(r.polls, k);
  }

  /** A decisive poll preceded only by indecisive ones is the first decisive poll. */
  lemma FirstDecisiveIs(polls: seq<PollReply>, k: nat)
    requires k < MaxRetries && Decisive(PollAt(polls, k))
    requires forall j :: 0 <= j < k ==> !Decisive(PollAt(polls, j))
    ensures FirstDecisive(polls, 0) == k
  {
  }

  /** A submission that is rate-limited twice, or ends with a status other than 200 or 202, is never polled. */
  lemma RejectedSubmissionIsNotPolled(r: ExportReplies)
    requires !Accepted(r)
    ensures PollsMade(r) == 0 && ExportLink(r) == JNull
  {
  }

  // ---------------------------------------------------------------------------
  // get_queried_animations_data

  /** The i-th page reply; pages beyond the given ones raise. */
  function PageAt(pages: seq<PageReply>, i: nat): PageReply
  {
    if i < |pages| then pages[i] else PageRaised
  }

  /** The decoded JSON object of a 200 reply, if it is one. */
  function PageObject(p: PageReply): Option<Record>
  {
    if p.PageHttp? && p.code == 200 && p.body.Some? && p.body.value.JObj? then Some(p.body.value.fields) else None
  }

  /** `num_pages` from the first reply; `None` when Python would raise comparing it with the page counter. */
  function NumPages(first: Record): Option<int>
  {
    var pagination := GetOr(first, "pagination", JObj(map[]));
    if !pagination.JObj? then None
    else
      match GetOr(pagination.fields, "num_pages", JInt(0))
      case JInt(n) => Some(n)
      case JBool(b) => Some(if b then 1 else 0)
      case _ => None
  }

  /**
   * What `animations.extend(data.get("results", []))` adds for one page; `None` when it
   * raises and the page is skipped. A string adds its characters. A nonempty object adds
   * its keys, which are strings; since any string in the list makes the later id lookup
   * raise, the model adds a single string in their place.
   */
  function PageItems(p: PageReply): Option<seq<Json>>
  {
    var data := PageObject(p);
    if data.None? then None
    else
      match GetOr(data.value, "results", JArr([]))
      case JArr(items) => Some(items)
      case JStr(s) => Some(seq(|s|, i requires 0 <= i < |s| => JStr([s[i]])))
      case JObj(f) => Some(if f == map[] then [] else [JStr("")])
      case _ => None
  }

  /** The records of pages 1..n in order, a skipped page adding nothing. */
  function CollectedPages(pages: seq<PageReply>, n: nat): seq<Json>
  {
    if n == 0 then []
    else
      var items := PageItems(PageAt(pages, n - 1));
      CollectedPages(pages, n - 1) + (if items.Some? then items.value else [])
  }

  /** `animation["id"]` and `animation["description"]` of one record, when both can be read and the id can be a key. */
  function Entry(a: Json): Option<(Scalar, Json)>
  {
    if a.JObj? && "id" in a.fields && "description" in a.fields && a.fields["id"].IsScalar()
    then Some((a.fields["id"], a.fields["description"]))
    else None
  }

  /** Every record yields an id and a description. */
  predicate AllEntries(animations: seq<Json>)
  {
    forall i :: 0 <= i < |animations| ==> Entry(animations[i]).Some?
  }

  /** The (id, description) pair of every record, in order. */
  function EntryPairs(animations: seq<Json>): seq<(Scalar, Json)>
    requires AllEntries(animations)
  {
    seq(|animations|, i requires 0 <= i < |animations| => Entry(animations[i]).value)
  }

  /** The id/description dictionary of the records, assigned in order; `None` when a lookup raises. */
  function IdMap(animations: seq<Json>): (r: Option<OrderedMap<Scalar, Json>>)
    ensures r.Some? <==> AllEntries(animations)
    ensures r.Some? ==> r.value.Valid()
  {
    if AllEntries(animations) then Some(FromPairs(EntryPairs(animations))) else None
  }

  /**
   * The dictionary's keys are exactly the records' ids, in order of the first record
   * carrying each, and each id maps to the description of the last record carrying it.
   */
  lemma IdMapContents(animations: seq<Json>)
    requires AllEntries(animations)
    ensures forall k :: k in IdMap(animations).value.keys <==>
              exists i :: 0 <= i < |animations| && Entry(animations[i]).value.0 == k
    ensures forall i, j :: 0 <= i < j < |IdMap(animations).value.keys| ==>
              FirstKeyAt(EntryPairs(animations), IdMap(animations).value.keys[i])
              < FirstKeyAt(EntryPairs(animations), IdMap(animations).value.keys[j])
    ensures forall i :: 0 <= i < |animations| &&
                        (forall j :: i < j < |animations| ==> Entry(animations[j]).value.0 != Entry(animations[i]).value.0) ==>
              IdMap(animations).value.values[Entry(animations[i]).value.0] == Entry(animations[i]).value.1
  {
    IdMapKeys(animations);
    FromPairsOrder(EntryPairs(animations));
    IdMapValues(animations);
  }

  lemma IdMapKeys(animations: seq<Json>)
    requires AllEntries(animations)
    ensures forall k :: k in IdMap(animations).value.keys <==>
              exists i :: 0 <= i < |animations| && Entry(animations[i]).value.0 == k
  {
    var ps := EntryPairs(animations);
    assert IdMap(animations).value == FromPairs(ps);
    FromPairsKeys(ps);
    forall k ensures k in FromPairs(ps).keys <==> exists i :: 0 <= i < |animations| && Entry(animations[i]).value.0 == k {
      if k in FromPairs(ps).keys {
        var i :| 0 <= i < |ps| && ps[i].0 == k;
        assert ps[i] == Entry(animations[i]).value;
      }
      if exists i :: 0 <= i < |animations| && Entry(animations[i]).value.0 == k {
        var i :| 0 <= i < |animations| && Entry(animations[i]).value.0 == k;
        assert ps[i] == Entry(animations[i]).value;
      }
    }
  }

  lemma IdMapValues(animations: seq<Json>)
    requires AllEntries(animations)
    ensures forall i :: 0 <= i < |animations| &&
                        (forall j :: i < j < |animations| ==> Entry(animations[j]).value.0 != Entry(animations[i]).value.0) ==>
              && Entry(animations[i]).value.0 in IdMap(animations).value.values
              && IdMap(animations).value.values[Entry(animations[i]).value.0] == Entry(animations[i]).value.1
  {
    var ps := EntryPairs(animations);
    var m := FromPairs(ps);
    assert IdMap(animations).value == m;
    FromPairsValues(ps);
    forall i | 0 <= i < |animations| &&
               (forall j :: i < j < |animations| ==> Entry(animations[j]).value.0 != Entry(animations[i]).value.0)
      ensures Entry(animations[i]).value.0 in m.values && m.values[Entry(animations[i]).value.0] == Entry(animations[i]).value.1
    {
      assert ps[i] == Entry(animations[i]).value;
      forall j | i < j < |ps| ensures ps[j].0 != ps[i].0 {
        assert ps[j] == Entry(animations[j]).value;
      }
    }
  }

  /** Turns the collected records into the id/description map, one assignment per record. */
  method BuildIdMap(animations: seq<Json>) returns (animData: OrderedMap<Scalar, Json>)
    ensures animData == IdMap(animations).GetOr(Empty())
  {
    animData := Empty();
    ghost var ps: seq<(Scalar, Json)> := [];
    for i := 0 to |animations|
      invariant |ps| == i
      invariant forall j :: 0 <= j < i ==> Entry(animations[j]) == Some(ps[j])
      invariant animData == FromPairs(ps)
    {
      var e := Entry(animations[i]);
      if e.None? {
        return Empty();
      }
      assert (ps + [e.value])[..i] == ps;
      animData := animData.Put(e.value.0, e.value.1);
      ps := ps + [e.value];
    }
    assert ps == EntryPairs(animations);
  }

  /**
   * `get_queried_animations_data`: read the page count from the first reply, request pages
   * 1..num_pages in ascending order, skipping (not stopping at) a page that fails, then map
   * every record's id to its description. Any failure outside a page gives the empty map.
   */
  method GetQueriedAnimationsData(first: PageReply, pages: seq<PageReply>) returns (animData: OrderedMap<Scalar, Json>)
    ensures PageObject(first).None? ==> animData == Empty()
    ensures PageObject(first).Some? && NumPages(PageObject(first).value).None? ==> animData == Empty()
    ensures PageObject(first).Some? && NumPages(PageObject(first).value).Some? ==>
              var n := NumPages(PageObject(first).value).value;
              var animations := CollectedPages(pages, if n < 0 then 0 else n);
              animData == IdMap(animations).GetOr(Empty())
    ensures animData.Valid()
  {
    var data := PageObject(first);
    if data.None? {
      return Empty();
    }
    var numPages := NumPages(data.value);
    if numPages.None? {
      return Empty();
    }
    var animations: seq<Json> := [];
    var pageNum := 1;
    while pageNum <= numPages.value
      invariant 1 <= pageNum && (numPages.value >= 0 ==> pageNum <= numPages.value + 1)
      invariant numPages.value < 0 ==> pageNum == 1
      invariant animations == CollectedPages(pages, pageNum - 1)
      decreases numPages.value + 1 - pageNum
    {
      var items := PageItems(PageAt(pages, pageNum - 1));
      if items.None? {
        pageNum := pageNum + 1;
        continue;
      }
      animations := animations + items.value;
      pageNum := pageNum + 1;
    }
    assert pageNum - 1 == if numPages.value < 0 then 0 else numPages.value;
    animData := BuildIdMap(animations);
  }

  /** Pages are read in ascending order; a failed page adds nothing and the later pages are still read. */
  lemma FailedPageIsSkipped(pages: seq<PageReply>, n: nat, i: nat)
    requires i < n && PageItems(PageAt(pages, i)).None?
    ensures CollectedPages(pages, i + 1) == CollectedPages(pages, i)
    ensures CollectedPages(pages, n) == CollectedPages(pages, i) + CollectedFrom(pages, i + 1, n)
  {
    CollectedSplit(pages, i + 1, n);
  }

  /** The records of pages from+1..to. */
  function CollectedFrom(pages: seq<PageReply>, lo: nat, hi: nat): seq<Json>
    requires lo <= hi
    decreases hi - lo
  {
    if lo == hi then []
    else
      var items := PageItems(PageAt(pages, lo));
      (if items.Some? then items.value else []) + CollectedFrom(pages, lo + 1, hi)
  }

  lemma {:induction false} CollectedSplit(pages: seq<PageReply>, m: nat, n: nat)
    requires m <= n
    ensures CollectedPages(pages, n) == CollectedPages(pages, m) + CollectedFrom(pages, m, n)
    decreases n - m
  {
    if m < n {
      CollectedSplit(pages, m + 1, n);
      var items := PageItems(PageAt(pages, m));
      var x := if items.Some? then items.value else [];
      assert CollectedPages(pages, m + 1) == CollectedPages(pages, m) + x;
      assert CollectedFrom(pages, m, n) == x + CollectedFrom(pages, m + 1, n);
    }
  }

  // ---------------------------------------------------------------------------
  // The worker

  /** The i-th item's replies; beyond the given ones, Stop is not pressed and every request raises. */
  function ItemAt(items: seq<ItemReplies>, i: nat): ItemReplies
  {
    if i < |items| then items[i]
    else ItemReplies(false, ProductRaised, false, ExportReplies(SubmitRaised, SubmitRaised, []), OtherError)
  }

  /** How many of the n items `run` reaches before Stop is seen. */
  function StopIndex(items: seq<ItemReplies>, n: nat): (k: nat)
    ensures k <= n
    ensures k < n ==> ItemAt(items, k).stop
    ensures forall j :: 0 <= j < k ==> !ItemAt(items, j).stop
  {
    if n == 0 then 0
    else
      var k := StopIndex(items, n - 1);
      if k < n - 1 then k else if ItemAt(items, n - 1).stop then n - 1 else n
  }

  /** The replies of the T-pose export and its download. */
  datatype TPoseReplies = TPoseReplies(exportReplies: ExportReplies, download: DownloadReply)

  class MixamoDownloader {
    /** The output folder; empty means the working directory. */
    var path: string
    var mode: Mode
    var query: string
    /** The progress counter reported to the UI. */
    var task: int
    /** The name of the product being exported, used as the file name. */
    var productName: Json

    constructor(path: string, mode: Mode, query: string)
      ensures this.path == path && this.mode == mode && this.query == query
      ensures task == 1 && productName == JNull
    {
      this.path := path;
      this.mode := mode;
      this.query := query;
      task := 1;
      productName := JNull;
    }

    /** The file the current product is written to. */
    function OutputFile(): FilePath
      reads this
    {
      FilePath(path, productName)
    }

    /**
     * `download_animation(url)`: with a truthy URL, fetch and write the file; whatever
     * happens, the progress counter advances by exactly one.
     */
    method DownloadAnimation(url: Json, reply: DownloadReply, disk: set<FilePath>) returns (disk': set<FilePath>)
      modifies this`task
      ensures task == old(task) + 1
      ensures disk' == if url.Truthy() && LeavesFile(reply) then disk + {OutputFile()} else disk
    {
      disk' := disk;
      if url.Truthy() {
        match reply
        case Saved =>
          disk' := disk + {OutputFile()};
          task := task + 1;
        case TimedOut =>
          task := task + 1;
        case RequestFailed =>
          task := task + 1;
        case OpenFailed =>
          task := task + 1;
        case WriteFailed =>
          disk' := disk + {OutputFile()};
          task := task + 1;
        case OtherError =>
          task := task + 1;
      } else {
        task := task + 1;
      }
    }

    /**
     * One item of the `run` loop, once Stop has been checked: build the payload, skip the
     * item when that fails or its file already exists, otherwise export and download it.
     * Each way through advances `task` by exactly one.
     */
    method RunItem(characterId: Json, animId: Scalar, r: ItemReplies, disk: set<FilePath>)
      returns (disk': set<FilePath>, outcome: ItemOutcome)
      modifies this`task, this`productName
      ensures task == old(task) + 1
      ensures var built := AnimationPayload(characterId, animId, r.product);
              && productName == built.productName.GetOr(old(productName))
              && (outcome == NoPayload <==> built.payload.None?)
              && (outcome == DirectoryFailed <==> built.payload.Some? && path != "" && r.directoryFails)
              && (outcome.AlreadyPresent? <==> built.payload.Some? && !(path != "" && r.directoryFails) && FilePath(path, productName) in disk)
              && (outcome.AlreadyPresent? || outcome.Exported? ==> outcome.file == FilePath(path, productName))
              && (outcome.Exported? ==> outcome.file !in disk && outcome.link == ExportLink(r.exportReplies))
      ensures outcome == ItemOutcomeOf(path, characterId, animId, r, disk)
      ensures disk' == DiskAfter(outcome, r, disk)
    {
      var built := AnimationPayload(characterId, animId, r.product);
      if built.productName.Some? {
        productName := built.productName.value;
      }
      if built.payload.None? {
        task := task + 1;
        return disk, NoPayload;
      }
      if path != "" && r.directoryFails {
        task := task + 1;
        return disk, DirectoryFailed;
      }
      var file := FilePath(path, productName);
      if file in disk {
        task := task + 1;
        return disk, AlreadyPresent(file);
      }
      var link, _, _ := ExportAnimation(r.exportReplies);
      disk' := DownloadAnimation(link, r.download, disk);
      outcome := Exported(file, link);
    }

    /**
     * `run`: with a character, either export the T-pose (unless its file exists) or walk the
     * animations of the chosen mode in order. `fileData` is the dictionary read from
     * `mixamo_anims.json` (empty when it cannot be read), `first` and `pages` the search
     * replies, `tpose` the replies of the T-pose export, `items` the replies per animation.
     */
    method Run(characterId: Json, characterName: Json, fileData: OrderedMap<Scalar, Json>,
               first: PageReply, pages: seq<PageReply>, tpose: TPoseReplies, items: seq<ItemReplies>,
               disk: set<FilePath>)
      returns (disk': set<FilePath>, processed: nat, ghost outcomes: seq<ItemOutcome>, ghost states: seq<set<FilePath>>)
      modifies this`task, this`productName
      ensures disk <= disk'
      ensures !characterId.Truthy() ==> task == old(task) && productName == old(productName) && disk' == disk
      ensures mode == TPose || !characterId.Truthy() ==> processed == 0
      ensures characterId.Truthy() && mode == TPose ==>
                && productName == characterName
                && (FilePath(path, characterName) in disk ==> task == old(task) && disk' == disk)
                && (FilePath(path, characterName) !in disk ==>
                      && task == old(task) + 1
                      && disk' == if ExportLink(tpose.exportReplies).Truthy() && LeavesFile(tpose.download)
                                  then disk + {FilePath(path, characterName)} else disk)
      ensures characterId.Truthy() && mode != TPose ==>
                && processed == StopIndex(items, (if mode == All then fileData else QueriedData(first, pages)).Size())
                && task == old(task) + processed
                && ItemsReport(path, characterId, if mode == All then fileData else QueriedData(first, pages),
                               items, processed, outcomes, states, disk, disk')
    {
      disk' := disk;
      processed := 0;
      outcomes := [];
      states := [disk];
      if !characterId.Truthy() {
        return;
      }
      if mode == TPose {
        var payload := TPosePayload(characterId, characterName);
        productName := characterName;
        var file := FilePath(path, productName);
        if file in disk {
          return;
        }
        var link, _, _ := ExportAnimation(tpose.exportReplies);
        disk' := DownloadAnimation(link, tpose.download, disk);
        return;
      }
      var animData: OrderedMap<Scalar, Json>;
      if mode == All {
        animData := fileData;
      } else {
        animData := GetQueriedAnimationsData(first, pages);
      }
      if animData.Size() == 0 {
        return;
      }
      disk', processed, outcomes, states := RunItems(characterId, animData, items, disk);
    }

    /**
     * The item loop of `run`: for each animation in dictionary order, stop when Stop has been
     * pressed, otherwise process the item. Every item reached advances `task` by one.
     * `outcomes[k]` is what happened to the k-th item and `states[k]` the files that
     * existed just before it.
     */
    method RunItems(characterId: Json, animData: OrderedMap<Scalar, Json>, items: seq<ItemReplies>, disk: set<FilePath>)
      returns (disk': set<FilePath>, processed: nat, ghost outcomes: seq<ItemOutcome>, ghost states: seq<set<FilePath>>)
      modifies this`task, this`productName
      ensures processed == StopIndex(items, animData.Size())
      ensures task == old(task) + processed
      ensures disk <= disk'
      ensures ItemsReport(path, characterId, animData, items, processed, outcomes, states, disk, disk')
    {
      disk' := disk;
      outcomes := [];
      states := [disk];
      var i := 0;
      while i < animData.Size()
        invariant 0 <= i <= animData.Size()
        invariant forall j :: 0 <= j < i ==> !ItemAt(items, j).stop
        invariant task == old(task) + i
        invariant disk <= disk' && (i == 0 ==> disk' == disk)
        invariant ItemsReport(path, characterId, animData, items, i, outcomes, states, disk, disk')
      {
        var r := ItemAt(items, i);
        if r.stop {
          StopIndexIs(items, animData.Size(), i);
          return disk', i, outcomes, states;
        }
        ghost var prior := disk';
        var outcome;
        disk', outcome := RunItem(characterId, animData.keys[i], r, disk');
        ReportStep(path, characterId, animData, items, i, outcomes, states, disk, prior, disk', outcome);
        states := states + [disk'];
        outcomes := outcomes + [outcome];
        i := i + 1;
      }
      StopIndexIs(items, animData.Size(), i);
      processed := i;
    }
  }

  /**
   * What `run` does with one item, given the files that exist before it: no payload, a
   * directory that cannot be created, a file that already exists (skipped), or an export
   * of the file named after the product, with the link the export returns.
   */
  function ItemOutcomeOf(path: string, characterId: Json, animId: Scalar, r: ItemReplies, disk: set<FilePath>): ItemOutcome
  {
    var built := AnimationPayload(characterId, animId, r.product);
    if built.payload.None? then NoPayload
    else if path != "" && r.directoryFails then DirectoryFailed
    else if FilePath(path, built.productName.value) in disk then AlreadyPresent(FilePath(path, built.productName.value))
    else Exported(FilePath(path, built.productName.value), ExportLink(r.exportReplies))
  }

  /** The files after one item: an export with a link adds its file when the download leaves one. */
  function DiskAfter(outcome: ItemOutcome, r: ItemReplies, disk: set<FilePath>): set<FilePath>
  {
    if outcome.Exported? && outcome.link.Truthy() && LeavesFile(r.download) then disk + {outcome.file} else disk
  }

  /**
   * What the item loop did to the first n items of `animData`: `states[k]` is the set of
   * files just before item k, running from the initial disk to the final one; `outcomes[k]`
   * is what item k did given its replies and the files before it, and the files after item
   * k are the ones that outcome leaves.
   */
  ghost predicate ItemsReport(path: string, characterId: Json, animData: OrderedMap<Scalar, Json>, items: seq<ItemReplies>,
                              n: nat, outcomes: seq<ItemOutcome>, states: seq<set<FilePath>>, disk: set<FilePath>, disk': set<FilePath>)
  {
    && n <= |animData.keys| && |outcomes| == n && |states| == n + 1
    && states[0] == disk && states[n] == disk'
    && forall k :: 0 <= k < n ==>
         && outcomes[k] == ItemOutcomeOf(path, characterId, animData.keys[k], ItemAt(items, k), states[k])
         && states[k + 1] == DiskAfter(outcomes[k], ItemAt(items, k), states[k])
  }

  lemma ReportStep(path: string, characterId: Json, animData: OrderedMap<Scalar, Json>, items: seq<ItemReplies>,
                   n: nat, outcomes: seq<ItemOutcome>, states: seq<set<FilePath>>, disk: set<FilePath>,
                   prior: set<FilePath>, next: set<FilePath>, outcome: ItemOutcome)
    requires n < |animData.keys|
    requires ItemsReport(path, characterId, animData, items, n, outcomes, states, disk, prior)
    requires outcome == ItemOutcomeOf(path, characterId, animData.keys[n], ItemAt(items, n), prior)
    requires next == DiskAfter(outcome, ItemAt(items, n), prior)
    ensures ItemsReport(path, characterId, animData, items, n + 1, outcomes + [outcome], states + [next], disk, next)
  {
  }

  /** The files the given item outcomes leave on disk, in item order. */
  function WrittenFiles(items: seq<ItemReplies>, outcomes: seq<ItemOutcome>): set<FilePath>
  {
    if outcomes == [] then {}
    else
      var k := |outcomes| - 1;
      WrittenFiles(items, outcomes[..k])
      + (if outcomes[k].Exported? && outcomes[k].link.Truthy() && LeavesFile(ItemAt(items, k).download)
         then {outcomes[k].file} else {})
  }

  /** Each state of the disk is the previous one after the matching item's outcome. */
  predicate DiskSteps(items: seq<ItemReplies>, outcomes: seq<ItemOutcome>, states: seq<set<FilePath>>)
  {
    && |states| == |outcomes| + 1
    && forall k :: 0 <= k < |outcomes| ==> states[k + 1] == DiskAfter(outcomes[k], ItemAt(items, k), states[k])
  }

  /** The last state is the first plus the files the outcomes wrote. */
  lemma {:induction false} StepsWrite(items: seq<ItemReplies>, outcomes: seq<ItemOutcome>, states: seq<set<FilePath>>)
    requires DiskSteps(items, outcomes, states)
    ensures states[|outcomes|] == states[0] + WrittenFiles(items, outcomes)
  {
    if outcomes != [] {
      var n := |outcomes|;
      var os, ss := outcomes[..n - 1], states[..n];
      forall k | 0 <= k < n - 1 ensures ss[k + 1] == DiskAfter(os[k], ItemAt(items, k), ss[k]) {
        assert os[k] == outcomes[k] && ss[k] == states[k] && ss[k + 1] == states[k + 1];
      }
      StepsWrite(items, os, ss);
    }
  }

  /** After the item loop the disk holds the files it started with plus exactly the files the items wrote. */
  lemma ItemsReportFiles(path: string, characterId: Json, animData: OrderedMap<Scalar, Json>,
                         items: seq<ItemReplies>, n: nat, outcomes: seq<ItemOutcome>,
                         states: seq<set<FilePath>>, disk: set<FilePath>, disk': set<FilePath>)
    requires ItemsReport(path, characterId, animData, items, n, outcomes, states, disk, disk')
    ensures disk' == disk + WrittenFiles(items, outcomes)
  {
    assert DiskSteps(items, outcomes, states);
    StepsWrite(items, outcomes, states);
  }

  /** The dictionary `get_queried_animations_data` returns for the given replies. */
  function QueriedData(first: PageReply, pages: seq<PageReply>): OrderedMap<Scalar, Json>
  {
    var data := PageObject(first);
    if data.None? then Empty()
    else
      var n := NumPages(data.value);
      if n.None? then Empty()
      else
        var animations := CollectedPages(pages, if n.value < 0 then 0 else n.value);
        IdMap(animations).GetOr(Empty())
  }

  lemma StopIndexIs(items: seq<ItemReplies>, n: nat, k: nat)
    requires k <= n
    requires k < n ==> ItemAt(items, k).stop
    requires forall j :: 0 <= j < k ==> !ItemAt(items, j).stop
    ensures StopIndex(items, n) == k
  {
  }
}
