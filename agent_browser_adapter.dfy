/**
  The adapter over the agent-browser command-line tool: the argument lists it
  passes to the tool, and the conversion of the tool's JSON snapshot into the
  service's snapshot format and ref map.
*/
module AgentBrowserAdapter {
  import opened Common

  /** What the tool reports for one ref: its accessibility role, name and description, each possibly missing. */
  datatype RefInfo = RefInfo(role: Option<string>, name: Option<string>, description: Option<string>)

  /**
    The `data` object of the tool's JSON answer. `refs` lists the entries of the
    `refs` object in the order `Object.entries` yields them.
  */
  datatype CliData = CliData(
    title: Option<string>,
    url: Option<string>,
    snapshot: Option<string>,
    refs: Option<seq<(string, RefInfo)>>)

  /** The parsed answer of one tool run; `data` may be missing from it. */
  datatype CliResponse = CliResponse(success: bool, error: Option<string>, data: Option<CliData>)

  /** A tool run either completes with a parsed answer or fails as a process (spawn, exit code, unparsable output). */
  datatype CliOutcome =
    | Completed(response: CliResponse)
    | ProcessFailed(message: string)

  /** One action of the service's format; `kind` is the action's `type` field, taken from the tool's role. */
  datatype LegacyAction = LegacyAction(ref: string, kind: string, labelText: string, hint: string)

  /** The snapshot in the service's format; `actions` is never absent here. */
  datatype LegacySnapshot = LegacySnapshot(
    sessionId: string,
    title: string,
    url: string,
    truncated: bool,
    actionsTruncated: bool,
    mainText: string,
    actions: seq<LegacyAction>)

  datatype SnapshotMode = CompactMode | InteractiveMode | FullMode

  /** `{ mode?, depth? }`; a missing field is None. */
  datatype SnapshotOptions = SnapshotOptions(mode: Option<SnapshotMode>, depth: Option<int>)

  /** The most actions a converted snapshot carries. */
  const ActionsCap: nat := 60

  /** The keys of a refs listing, in order. */
  function Keys(refs: seq<(string, RefInfo)>): set<string> {
    set k | 0 <= k < |refs| :: refs[k].0
  }

  lemma KeysOfOne(entry: (string, RefInfo))
    ensures Keys([entry]) == {entry.0}
  {
    assert [entry][0].0 == entry.0;
  }

  lemma RefMapOfOne(entry: (string, RefInfo))
    ensures RefMapSpec([entry]) == map[entry.0 := "@" + entry.0]
  {
    KeysOfOne(entry);
    assert RefMapSpec([entry]).Keys == {entry.0};
  }

  /** The action the conversion builds from one refs entry. */
  function ToAction(entry: (string, RefInfo)): (a: LegacyAction)
    ensures a.ref == entry.0
    ensures a.kind == OptOrElse(entry.1.role, "element")
    ensures a.labelText == OptOrElse(entry.1.name, "") && a.hint == OptOrElse(entry.1.description, "")
    ensures a.kind != ""
  {
    LegacyAction(entry.0, OptOrElse(entry.1.role, "element"), OptOrElse(entry.1.name, ""), OptOrElse(entry.1.description, ""))
  }

  /** One action per refs entry, in order. */
  function ToActions(refs: seq<(string, RefInfo)>): (r: seq<LegacyAction>)
    ensures |r| == |refs|
    decreases |refs|
  {
    if refs == [] then [] else ToActions(refs[..|refs| - 1]) + [ToAction(refs[|refs| - 1])]
  }

  lemma {:induction false} ToActionsAt(refs: seq<(string, RefInfo)>, k: nat)
    requires k < |refs|
    ensures ToActions(refs)[k] == ToAction(refs[k])
    decreases |refs|
  {
    if k < |refs| - 1 {
      ToActionsAt(refs[..|refs| - 1], k);
      assert refs[..|refs| - 1][k] == refs[k];
    }
  }

  /** The refs entries of a data object, or none when `refs` is missing. */
  function RefsOrEmpty(data: CliData): seq<(string, RefInfo)> {
    if data.refs.Some? then data.refs.value else []
  }

  /** The ref map the adapter hands back: every ref key mapped to the tool's `@ref` address. */
  function RefMapSpec(refs: seq<(string, RefInfo)>): map<string, string> {
    map r | r in Keys(refs) :: "@" + r
  }

  /**
    `s` is the conversion of `data` for `sessionId`: every field is the tool's value or
    its default, `truncated` is false, and the actions are the first 60 conversions.
  */
  predicate ConvertedFrom(s: LegacySnapshot, data: CliData, sessionId: string) {
    && s.sessionId == sessionId
    && s.title == OptOrElse(data.title, "") && s.url == OptOrElse(data.url, "")
    && s.mainText == OptOrElse(data.snapshot, "")
    && !s.truncated
    && (s.actionsTruncated <==> |RefsOrEmpty(data)| > ActionsCap)
    && s.actions == Prefix(ToActions(RefsOrEmpty(data)), ActionsCap)
  }

  /** Convert the tool's data into the service's snapshot format. */
  method ConvertToLegacyFormat(data: CliData, sessionId: string) returns (s: LegacySnapshot)
    ensures ConvertedFrom(s, data, sessionId)
  {
    var actions: seq<LegacyAction> := [];
    var refs := RefsOrEmpty(data);
    var i := 0;
    while i < |refs|
      invariant 0 <= i <= |refs|
      invariant actions == ToActions(refs[..i])
    {
      var (ref, info) := refs[i];
      assert refs[..i + 1][..i] == refs[..i];
      actions := actions + [LegacyAction(ref, OptOrElse(info.role, "element"), OptOrElse(info.name, ""), OptOrElse(info.description, ""))];
      i := i + 1;
    }
    assert refs[..i] == refs;
    s := LegacySnapshot(
      sessionId,
      OptOrElse(data.title, ""),
      OptOrElse(data.url, ""),
      false,
      |actions| > ActionsCap,
      OptOrElse(data.snapshot, ""),
      Prefix(actions, ActionsCap));
  }

  /** Build the ref map: each ref key addressed as `@ref`. */
  method ExtractRefMap(refs: seq<(string, RefInfo)>) returns (refMap: map<string, string>)
    ensures refMap.Keys == Keys(refs)
    ensures forall r :: r in refMap ==> refMap[r] == "@" + r
  {
    refMap := map[];
    var i := 0;
    while i < |refs|
      invariant 0 <= i <= |refs|
      invariant refMap.Keys == Keys(refs[..i])
      invariant forall r :: r in refMap ==> refMap[r] == "@" + r
    {
      var ref := refs[i].0;
      refMap := refMap[ref := "@" + ref];
      KeysExtend(refs, i);
      i := i + 1;
    }
    assert refs[..i] == refs;
  }

  lemma KeysExtend(refs: seq<(string, RefInfo)>, i: nat)
    requires i < |refs|
    ensures Keys(refs[..i + 1]) == Keys(refs[..i]) + {refs[i].0}
  {
    var a, b := refs[..i + 1], refs[..i];
    assert a[i] == refs[i];
    forall r | r in Keys(a) ensures r in Keys(b) + {refs[i].0} {
      var k :| 0 <= k < i + 1 && a[k].0 == r;
      if k < i { assert b[k] == a[k]; }
    }
    forall r | r in Keys(b) ensures r in Keys(a) {
      var k :| 0 <= k < i && b[k].0 == r;
      assert a[k] == b[k];
    }
  }

  /** `depth` counts as given when it is present and non-zero (JavaScript truthiness of a number). */
  predicate DepthGiven(depth: Option<int>) {
    depth.Some? && depth.value != 0
  }

  predicate FiltersInteractive(mode: Option<SnapshotMode>) {
    mode == Some(InteractiveMode) || mode == Some(CompactMode)
  }

  /** The argument vector of a snapshot run for the given options. */
  function ArgsFor(options: SnapshotOptions): seq<string> {
    ["snapshot", "--json"]
      + (if FiltersInteractive(options.mode) then ["-i", "-c"] else [])
      + (if DepthGiven(options.depth) then ["-d", IntToString(options.depth.value)] else [])
  }

  /** The tool arguments of a snapshot run. */
  method SnapshotArgs(options: SnapshotOptions) returns (args: seq<string>)
    ensures |args| >= 2 && args[..2] == ["snapshot", "--json"]
    ensures args == ArgsFor(options)
    ensures "-i" in args <==> FiltersInteractive(options.mode)
    ensures "-d" in args <==> DepthGiven(options.depth)
  {
    args := ["snapshot", "--json"];
    if FiltersInteractive(options.mode) {
      args := args + ["-i"];
      args := args + ["-c"];
    }
    if DepthGiven(options.depth) {
      args := args + ["-d", IntToString(options.depth.value)];
    }
    assert args[0] == "snapshot" && args[1] == "--json";
    assert FiltersInteractive(options.mode) ==> args[2] == "-i";
    assert DepthGiven(options.depth) ==> args[|args| - 2] == "-d";
    assert DepthGiven(options.depth) ==>
      var d := IntToString(options.depth.value);
      d != "-i" && d != "-d" by {
      if DepthGiven(options.depth) {
        var d := IntToString(options.depth.value);
        assert |d| >= 2 ==> '0' <= d[1] <= '9';
      }
    }
  }

  /** The tool arguments of a click on a ref. */
  function ClickArgs(ref: string): (args: seq<string>)
    ensures |args| == 3 && args[1] == "@" + ref
  {
    ["click", "@" + ref, "--json"]
  }

  /** The tool arguments of filling a ref with text. */
  function FillArgs(ref: string, text: string): (args: seq<string>)
    ensures |args| == 4 && args[1] == "@" + ref && args[2] == text
  {
    ["fill", "@" + ref, text, "--json"]
  }

  /** What reading `data.refs` raises when a successful answer carries no `data`. */
  const MissingDataMessage: string := "Cannot read properties of undefined (reading 'refs')"

  const SnapshotFailurePrefix: string := "agent-browser snapshot 失败: "

  /** The failure message of a snapshot whose answer reports no success: the tool's error, or `未知错误` when it gave none. */
  function SnapshotFailureMessage(error: Option<string>): string {
    SnapshotFailurePrefix + OptOrElse(error, "未知错误")
  }

  /** The failure message is the prefix followed by the tool's error, or by `未知错误` when the tool gave none; it is never the bare prefix. */
  lemma SnapshotFailureMessageParts(error: Option<string>)
    ensures |SnapshotFailureMessage(error)| > |SnapshotFailurePrefix|
    ensures SnapshotFailureMessage(error)[..|SnapshotFailurePrefix|] == SnapshotFailurePrefix
    ensures error.Some? && error.value != "" ==> SnapshotFailureMessage(error)[|SnapshotFailurePrefix|..] == error.value
    ensures error.None? || error.value == "" ==> SnapshotFailureMessage(error)[|SnapshotFailurePrefix|..] == "未知错误"
  {
  }

  /** The tool run completed and delivered data to convert. */
  predicate Delivered(run: CliOutcome) {
    run.Completed? && run.response.success && run.response.data.Some?
  }

  /** The error a snapshot run ends with when it delivered nothing. */
  function FailureText(run: CliOutcome): string
    requires !Delivered(run)
  {
    match run
    case ProcessFailed(message) => message
    case Completed(response) => if !response.success then SnapshotFailureMessage(response.error) else MissingDataMessage
  }

  /**
    Take a snapshot: build the arguments, run the tool (its outcome is `run`), and on
    success convert its data and build the ref map from the same data.
  */
  method Snapshot(sessionId: string, profileDir: string, options: SnapshotOptions, run: CliOutcome)
    returns (args: seq<string>, r: Result<(LegacySnapshot, map<string, string>), string>)
    ensures args == ArgsFor(options)
    ensures "-i" in args <==> FiltersInteractive(options.mode)
    ensures "-d" in args <==> DepthGiven(options.depth)
    ensures run.ProcessFailed? ==> r == Failure(run.message)
    ensures run.Completed? && !run.response.success ==> r == Failure(SnapshotFailureMessage(run.response.error))
    ensures run.Completed? && run.response.success && run.response.data.None? ==> r == Failure(MissingDataMessage)
    ensures !Delivered(run) ==> r == Failure(FailureText(run))
    ensures run.Completed? && run.response.success && run.response.data.Some? ==>
      var data := run.response.data.value;
      && r.Success?
      && ConvertedFrom(r.value.0, data, sessionId)
      && r.value.1 == RefMapSpec(RefsOrEmpty(data))
    ensures r.Success? ==> forall a :: a in r.value.0.actions ==> a.ref in r.value.1 && r.value.1[a.ref] == "@" + a.ref
  {
    args := SnapshotArgs(options);
    if run.ProcessFailed? {
      return args, Failure(run.message);
    }
    var result := run.response;
    if !result.success {
      return args, Failure(SnapshotFailureMessage(result.error));
    }
    if result.data.None? {
      return args, Failure(MissingDataMessage);
    }
    var data := result.data.value;
    var snapshot := ConvertToLegacyFormat(data, sessionId);
    var refMap := ExtractRefMap(RefsOrEmpty(data));
    assert refMap == RefMapSpec(RefsOrEmpty(data));
    ActionRefsAreKeys(RefsOrEmpty(data));
    return args, Success((snapshot, refMap));
  }

  /** Every converted action's ref is a key of the refs it came from, even after the cap. */
  lemma ActionRefsAreKeys(refs: seq<(string, RefInfo)>)
    ensures forall a :: a in Prefix(ToActions(refs), ActionsCap) ==> a.ref in Keys(refs)
  {
    var acts := Prefix(ToActions(refs), ActionsCap);
    forall a | a in acts ensures a.ref in Keys(refs) {
      var k :| 0 <= k < |acts| && acts[k] == a;
      ToActionsAt(refs, k);
    }
  }

  /** Beyond the cap the ref map keeps more refs than there are actions (refs keys are distinct in a JSON object). */
  lemma RefMapOutgrowsActions(refs: seq<(string, RefInfo)>)
    requires forall j, k :: 0 <= j < k < |refs| ==> refs[j].0 != refs[k].0
    requires |refs| > ActionsCap
    ensures |RefMapSpec(refs)| > |Prefix(ToActions(refs), ActionsCap)|
  {
    KeysCount(refs);
    assert RefMapSpec(refs).Keys == Keys(refs);
  }

  lemma {:induction false} KeysCount(refs: seq<(string, RefInfo)>)
    requires forall j, k :: 0 <= j < k < |refs| ==> refs[j].0 != refs[k].0
    ensures |Keys(refs)| == |refs|
    decreases |refs|
  {
    if refs != [] {
      var n := |refs| - 1;
      var init := refs[..n];
      KeysCount(init);
      KeysExtend(refs, n);
      assert refs[..n + 1] == refs;
      assert forall k :: 0 <= k < n ==> init[k] == refs[k];
      assert refs[n].0 !in Keys(init);
    }
  }

  /** The address a click or fill sends for a ref is exactly the one the ref map holds for it. */
  lemma ClickAddressesRefMapEntry(refs: seq<(string, RefInfo)>, ref: string, text: string)
    requires ref in Keys(refs)
    ensures ClickArgs(ref)[1] == RefMapSpec(refs)[ref]
    ensures FillArgs(ref, text)[1] == RefMapSpec(refs)[ref]
  {
  }
}
