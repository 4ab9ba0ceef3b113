# AgentBrowserService core, modelled in Dafny

AgentBrowserService is a small HTTP service. Agents use it to drive headless browser
sessions with a compact JSON snapshot of the page instead of raw HTML. This project
models its core in four modules:

- `Sessions` (`session_manager.dfy`): the session registry.
  - `SessionManager` is a class whose `sessions` field is a `map<string, Session>`.
  - Its methods cover creation behind the `MAX_SESSIONS` ceiling, lookups that refresh
    `lastActiveAt`, closing, the idle reaper, and shutdown.
- `SnapshotSerializer` (`snapshot_serializer.dfy`): the page serializer.
  - Text: whitespace normalisation (`replace(/\s+/g, ' ').trim()`) and truncation with
    the `...(已截断)` marker.
  - Actions: extraction of interactive elements, classified into link, button, input,
    textarea or other, labelled, clipped to 50 characters and numbered `<tag letter><n>`,
    with the `[data-browser-agent-ref="…"]` selector each one gets.
  - The in-page script is a loop, and is modelled as a method proved against a
    recursive specification function.
- `AgentBrowserAdapter` (`agent_browser_adapter.dfy`): the wrapper around the
  `agent-browser` command-line tool.
  - It builds the snapshot, click and fill argument vectors.
  - It converts the tool's JSON `refs` into the legacy snapshot shape: role defaults to
    `element`, and actions are capped at 60.
  - It builds the `ref -> @ref` map.
- `ApiRoutes` (`api_routes.dfy`): the REST handlers' decisions.
  - Session creation answers 429 when rejected for capacity, 500 otherwise.
  - A missing session answers 404.
  - After a snapshot, the session's ref map is swapped wholesale.
  - `getSessionAndSelector` resolves refs.
  - The required-argument checks of click, fill and press, and the `ms || 1000` wait
    default.

`Common` (`common.dfy`) holds `Option`, `Result` and the JavaScript string semantics the
modules share:
- `||` on strings;
- `slice`/`substring` from index 0;
- `includes`;
- `Number.prototype.toString` of integers below 10^21.

Points where the code's behaviour is easy to misread, each modelled as written:
- **Refs carry no generation.** A successful snapshot replaces the whole ref map
  (`src/routes/api.ts:125`), and so does the model.
  - A ref missing from the current map is rejected (`ApiRoutes.StaleRefRejected`,
    `ApiRoutes.StaleRefScenario`).
  - A ref string that reappears in a later snapshot resolves again.
- **Click and fill do not check the ref.** They pass the ref to the tool without
  consulting the ref map: `getSessionAndSelector` (`src/routes/api.ts:145-155`) is
  defined but no handler calls it.
  - `ApiRoutes.GetSessionAndSelector` models it as written.
  - `ApiRoutes.PostClick` and `ApiRoutes.PostFill` model what the handlers actually do.
- **Snapshot options are always empty.** The snapshot handler reads
  `config.SNAPSHOT_FILTER_MODE` and `config.SNAPSHOT_MAX_DEPTH`, but `src/config.ts`
  defines neither.
  - So the options reach the adapter empty, and the tool runs with exactly
    `snapshot --json` (`ApiRoutes.ConfiguredSnapshotOptions`).
  - The `mode` field the request schema parses is never used.
- **The serializer is not called by any handler.** `SnapshotSerializer.capture` is not
  called by the REST handlers, which use the adapter. It is modelled as written.
- **Serializer modes.** The serializer's modes are `compact`, `text_only` and
  `actions_only`; `compact` runs both passes.

## Model

| member | source | states |
|---|---|---|
| Sessions.CapacityMessage | src/services/SessionManager.ts:50-53 | the capacity rejection message contains the keyword 限制 that the protocol layer looks for |
| Sessions.SessionIdFrom | src/services/SessionManager.ts:56 | a session id is `s_` followed by the first 8 characters of the uuid, 10 characters for a full uuid |
| Sessions.ProfileDir | src/services/SessionManager.ts:57 | the profile directory is `<dataDir>/sessions/<id>/profile` |
| Sessions.ProfileDirInjective | src/services/SessionManager.ts:57 | distinct session ids get distinct profile directories under one data directory |
| Sessions.IsExpired | src/services/SessionManager.ts:37 | a session is expired when it has been idle for strictly more than the TTL, with the TTL in seconds times 1000 |
| Sessions.Survivors | src/services/SessionManager.ts:37-42 | an id survives a reaper pass iff it was present and idle for at most the TTL (seconds times 1000, strict `>`); survivors are unchanged |
| Sessions.SurvivorsShrink | src/services/SessionManager.ts:33-43 | a reaper pass only removes sessions: the surviving ids are a subset, and the count never grows |
| Sessions.RefreshedSessionSurvives | src/services/SessionManager.ts:97-103 | a session refreshed by a lookup at t survives every reaper pass within the TTL of t |
| Sessions.SurvivorsIdempotent | src/services/SessionManager.ts:33-43 | a second reaper pass at the same instant removes nothing more |
| Sessions.SessionManager.constructor | src/services/SessionManager.ts:23-28 | a new registry is empty, keeps its configuration and has its reaper timer running |
| Sessions.SessionManager.CreateSession | src/services/SessionManager.ts:48-92 | at the ceiling: a capacity failure with the registry unchanged; on launch failure: that failure with the registry unchanged; otherwise the entry for `s_<uuid prefix>` is added with an empty ref map, both timestamps `now` and the derived profile directory, and the count grows by one when the id is new; the registry invariant is kept |
| Sessions.SessionManager.GetSession | src/services/SessionManager.ts:97-103 | a hit returns the session with `lastActiveAt := now` and writes exactly that back; a miss returns nothing and changes nothing |
| Sessions.SessionManager.ReplaceRefMap | src/routes/api.ts:125 | the session's ref map is replaced wholesale and nothing else changes; an absent id changes nothing |
| Sessions.SessionManager.CloseSession | src/services/SessionManager.ts:108-124 | the answer is whether the id was registered; the entry is removed whether or not releasing the context succeeds |
| Sessions.SessionManager.CleanupExpiredSessions | src/services/SessionManager.ts:33-43 | the loop through CloseSession leaves exactly `Survivors(old sessions, now, TTL)` |
| Sessions.SessionManager.ReaperTick | src/services/SessionManager.ts:25-27 | a timer tick runs a reaper pass while the timer runs, and does nothing once it is cleared |
| Sessions.SessionManager.CloseAll | src/services/SessionManager.ts:129-134 | shutdown stops the timer and leaves the registry empty, even when context releases fail |
| Sessions.SingleSlotScenario | src/services/SessionManager.ts:50-54 | with one slot: create succeeds; a second create is refused for capacity; close answers true and then false; a create afterwards succeeds |
| SnapshotSerializer.Trim | src/services/SnapshotSerializer.ts:45 | `trim()` leaves no whitespace at either end |
| SnapshotSerializer.TrimIsSlice | src/services/SnapshotSerializer.ts:45 | `trim()` yields a contiguous slice, and everything cut from either end is whitespace |
| SnapshotSerializer.CollapseRuns | src/services/SnapshotSerializer.ts:45 | `replace(/\s+/g, ' ')`: the result is empty iff the input is |
| SnapshotSerializer.CollapseRunsAsWords | src/services/SnapshotSerializer.ts:45 | text that does not start with whitespace collapses to its words joined by single spaces, plus one space when it ended in whitespace |
| SnapshotSerializer.CollapseRunsShape | src/services/SnapshotSerializer.ts:45 | after `replace(/\s+/g, ' ')` there are no two adjacent whitespace characters, and every whitespace character is a plain space |
| SnapshotSerializer.CollapseRunsKeepsWords | src/services/SnapshotSerializer.ts:45 | collapsing keeps every non-whitespace character, in order |
| SnapshotSerializer.WordsAreWords | src/services/SnapshotSerializer.ts:45 | every element of `Words(s)`, the maximal non-whitespace runs of the text, is a non-empty run without whitespace |
| SnapshotSerializer.JoinSpaced | src/services/SnapshotSerializer.ts:45 | words joined by single spaces have no whitespace at either end |
| SnapshotSerializer.Normalize | src/services/SnapshotSerializer.ts:45 | the normalised text is exactly the words of the body text, in order, joined by single spaces |
| SnapshotSerializer.NormalizeAsWords | src/services/SnapshotSerializer.ts:45 | collapsing then trimming equals the words of the text joined by single spaces |
| SnapshotSerializer.NormalizeShape | src/services/SnapshotSerializer.ts:45 | normalised text is trimmed, single-spaced and keeps every non-whitespace character of the body text, in order |
| SnapshotSerializer.NormalizeIdempotent | src/services/SnapshotSerializer.ts:45 | normalising normalised text changes nothing |
| SnapshotSerializer.BoundText | src/services/SnapshotSerializer.ts:48-53 | truncated iff longer than the budget; otherwise unchanged; when truncated: exactly the first `maxChars` characters followed by the marker |
| SnapshotSerializer.BoundTextExample | src/services/SnapshotSerializer.ts:48-53 | a 25-character text under a 10-character budget becomes its first 10 characters plus the marker |
| SnapshotSerializer.Describe | src/services/SnapshotSerializer.ts:133-156 | a button's label is never empty; `other` elements have an empty label and hint |
| SnapshotSerializer.ClassificationRules | src/services/SnapshotSerializer.ts:133-156 | for each kind, the exact tag, role and input-type condition that yields it; `other` has an empty label and hint |
| SnapshotSerializer.LabelFallbacks | src/services/SnapshotSerializer.ts:133-156 | each kind's label fallback chain (trimmed text, then href, value, `button`, input type, or placeholder/name), including `<input role="button">`, which takes the button chain; the hint is the value for inputs and textareas and empty otherwise |
| SnapshotSerializer.ButtonLabelNonEmpty | src/services/SnapshotSerializer.ts:137-146 | a button always gets a non-empty label |
| SnapshotSerializer.RefFor | src/services/SnapshotSerializer.ts:158 | the ref is the tag's first letter followed by the counter's decimal text |
| SnapshotSerializer.SelectorInjective | src/services/SnapshotSerializer.ts:161-162 | distinct refs give distinct `data-browser-agent-ref` selectors |
| SnapshotSerializer.ActionFor | src/services/SnapshotSerializer.ts:158-170 | label and hint are the classification's, clipped to 50 characters each; the ref is the tag initial plus the counter; the selector addresses the action's own ref |
| SnapshotSerializer.Visible | src/services/SnapshotSerializer.ts:115-119 | the kept elements are all visible, no more than the input, and an element is kept iff it is in the input and visible |
| SnapshotSerializer.VisibleAppend | src/services/SnapshotSerializer.ts:115-119 | the filter distributes over concatenation and keeps a single element iff it is visible, so order and multiplicity are those of the document |
| SnapshotSerializer.Numbered | src/services/SnapshotSerializer.ts:126-171 | one action per kept element |
| SnapshotSerializer.PageActions | src/services/SnapshotSerializer.ts:115-171 | the page script never returns more than `max` actions |
| SnapshotSerializer.NumberedAt | src/services/SnapshotSerializer.ts:126-171 | the k-th kept element becomes the action numbered k+1 |
| SnapshotSerializer.RetainedPrefix | src/services/SnapshotSerializer.ts:121-124 | the actions are the first `min(visible, max)` visible elements in document order, numbered from 1 |
| SnapshotSerializer.ActionsBudgetExample | src/services/SnapshotSerializer.ts:121-124 | 5 visible elements under a budget of 2 give the actions of the first two, numbered 1 and 2 |
| SnapshotSerializer.RefsDistinct | src/services/SnapshotSerializer.ts:158 | two actions of one snapshot never share a ref, provided every element has a non-empty tag name (as every DOM element does) |
| SnapshotSerializer.ExtractInPage | src/services/SnapshotSerializer.ts:99-174 | the in-page loop produces exactly the specified actions, and flags truncation iff more elements were visible than the budget |
| SnapshotSerializer.SplitPageResult | src/services/SnapshotSerializer.ts:176-185 | the service-side loop copies each page action without its selector, in order, and the ref map's keys are exactly their refs, each mapped to the selector that addresses it |
| SnapshotSerializer.ExtractActions | src/services/SnapshotSerializer.ts:95-186 | the returned actions are the page actions without selectors; the ref map's keys are exactly their refs, each mapped to its selector; every returned action's ref is in the returned map, bound to its selector; truncation as in the page |
| SnapshotSerializer.Capture | src/services/SnapshotSerializer.ts:32-90 | gated by mode: text is present iff requested and is the bounded normalised body; actions and ref map are present iff requested, and every returned action's ref is in the returned map, bound to its selector; the flags are false for passes not run |
| AgentBrowserAdapter.ToAction | src/services/AgentBrowserAdapter.ts:173-178 | an action keeps the ref; its `type` (the field `kind`) is the tool's role, defaulting to `element` and never empty; label and hint default to "" |
| AgentBrowserAdapter.ToActions | src/services/AgentBrowserAdapter.ts:172-179 | one action per refs entry |
| AgentBrowserAdapter.ToActionsAt | src/services/AgentBrowserAdapter.ts:172-179 | the k-th action is the conversion of the k-th refs entry, in entry order |
| AgentBrowserAdapter.ConvertToLegacyFormat | src/services/AgentBrowserAdapter.ts:167-192 | title, url and text default to ""; `truncated` is false; actions are the first 60 conversions; `actionsTruncated` holds iff there were more than 60 refs |
| AgentBrowserAdapter.ExtractRefMap | src/services/AgentBrowserAdapter.ts:197-206 | the loop's map has exactly the refs' keys, each mapped to `@` + ref |
| AgentBrowserAdapter.SnapshotArgs | src/services/AgentBrowserAdapter.ts:43-53 | `snapshot --json`, then `-i -c` iff the mode is interactive or compact, then `-d <depth>` iff the depth is present and non-zero |
| AgentBrowserAdapter.ClickArgs | src/services/AgentBrowserAdapter.ts:93 | three arguments addressing the ref as `@ref` |
| AgentBrowserAdapter.FillArgs | src/services/AgentBrowserAdapter.ts:125 | four arguments addressing the ref as `@ref` and carrying the text verbatim |
| AgentBrowserAdapter.SnapshotFailureMessage | src/services/AgentBrowserAdapter.ts:68 | the `agent-browser snapshot 失败: ` prefix followed by the tool's error, or `未知错误` when it gave none |
| AgentBrowserAdapter.SnapshotFailureMessageParts | src/services/AgentBrowserAdapter.ts:68 | the message is the prefix followed by the tool's error when it gave a non-empty one, and by `未知错误` otherwise, so it is never the bare prefix |
| AgentBrowserAdapter.Snapshot | src/services/AgentBrowserAdapter.ts:38-84 | the arguments are exactly those of SnapshotArgs; a process failure or a `success: false` answer is a failure (the latter prefixed, with `未知错误` when the tool gave no error); a success without `data` is a failure; otherwise the snapshot has the session id, title, url and text defaulting to "", `truncated` false, the first 60 converted refs and `actionsTruncated` iff there were more, with the ref map built from the same refs, and every action's ref is in it |
| AgentBrowserAdapter.ActionRefsAreKeys | src/services/AgentBrowserAdapter.ts:187-190 | the capped actions only name refs the tool reported |
| AgentBrowserAdapter.RefMapOutgrowsActions | src/services/AgentBrowserAdapter.ts:187-202 | with more than 60 distinct refs, the ref map is strictly larger than the capped action list (it is built from all refs) |
| AgentBrowserAdapter.ClickAddressesRefMapEntry | src/services/AgentBrowserAdapter.ts:202 | the `@ref` that click and fill send is exactly the ref map's entry for that ref |
| ApiRoutes.CreateFailureStatus | src/routes/api.ts:40-44 | 429 iff the error message contains 限制, otherwise 500 |
| ApiRoutes.CapacityRejectionIsThrottled | src/routes/api.ts:40-44 | the registry's capacity rejection always maps to 429 |
| ApiRoutes.PostSessions | src/routes/api.ts:34-47 | at the ceiling: 429 and the registry unchanged; on launch failure: the classed status with the launch message; otherwise 200 with the new session id, and the registry gains exactly that entry with an empty ref map, both timestamps `now` and its profile directory; the timer flag never changes |
| ApiRoutes.DeleteSession | src/routes/api.ts:50-58 | the id is removed and nothing else changes; 200 if it was registered, else 404 `会话不存在或已关闭` |
| ApiRoutes.RefNotFoundMessage | src/routes/api.ts:152 | the rejection message of a ref contains "not found" |
| ApiRoutes.ResolveSelector | src/routes/api.ts:149-153 | no ref (or "") resolves to ""; a given ref resolves iff the map has a non-empty selector for it, to that selector; every rejection's message says "not found" |
| ApiRoutes.StaleRefRejected | src/routes/api.ts:149-153 | a ref missing from the current map is rejected, whatever an earlier map held for it |
| ApiRoutes.GetSessionAndSelector | src/routes/api.ts:145-155 | an unknown session gives `Session not found` with nothing changed; otherwise the session is refreshed (even when the ref is then rejected), nothing else changes, and the ref is resolved against its current map |
| ApiRoutes.PostSnapshot | src/routes/api.ts:100-133 | an unknown session gives 404; the tool runs with exactly `snapshot --json`; when the tool delivers data the body is that data's conversion (session id, title, url, text, capped actions and both flags) and the session's ref map becomes the map built from the new refs, wholesale; otherwise 500 with `获取快照失败: ` and the adapter's failure text, with only the refresh applied |
| ApiRoutes.SnapshotThenResolve | src/routes/api.ts:118-125 | after a successful snapshot, a lookup resolves refs against the map of that snapshot, which stays installed |
| ApiRoutes.StaleRefScenario | src/routes/api.ts:145-155 | a ref of the first snapshot resolves before the second snapshot and is rejected after it; a ref of the second resolves |
| ApiRoutes.ErrorStatus | src/routes/api.ts:169 | 404 iff the message contains "not found", otherwise 500 |
| ApiRoutes.ActionErrorStatuses | src/routes/api.ts:162-169 | a missing session maps to 404; a missing click ref maps to 500 |
| ApiRoutes.FillErrorStatus | src/routes/api.ts:180-186 | missing fill arguments map to 500 |
| ApiRoutes.RejectedRefIsNotFound | src/routes/api.ts:152 | a rejected ref always maps to 404 under the click and fill status rule |
| ApiRoutes.PostClick | src/routes/api.ts:158-172 | unknown session: 404 with no command; missing ref: 500 with no command; otherwise the click command for `@ref` is sent and the engine's failure is classed by message; only the session's `lastActiveAt` changes |
| ApiRoutes.PostFill | src/routes/api.ts:175-189 | as click, but also requires a defined text (the empty text is accepted): missing arguments give 500 `Ref and text are required for fill` with no command; otherwise the fill command is sent with the text |
| ApiRoutes.PostPress | src/routes/api.ts:192-206 | unknown session: 404; missing or empty key: 500 with nothing pressed; otherwise the key is pressed and every engine failure is a 500 |
| ApiRoutes.WaitDuration | src/routes/api.ts:215 | a missing or zero duration becomes 1000 ms, any other number (fractional or negative) is kept, and the result is never 0 |
| ApiRoutes.PostWait | src/routes/api.ts:209-223 | unknown session: 404; otherwise waits the defaulted duration, and every engine failure is a 500 |

## Left out

- Browser, timer and tool calls are parameters of the model.
  - Playwright, the `agent-browser` process (`execa`), `Date.now`, `uuidv4` and `setInterval` are written out this way.
  - The launch outcome, the context-close outcome, the tool's parsed JSON answer and the engine's press/wait/click outcome are all inputs.
  - The order in which values are drawn is not modelled.
- The page's DOM is an input. The visibility computation of the in-page filter (computed style and bounding box) is one boolean per element, and element enumeration is the given element list.
- The `npx agent-browser` prefix and the session/profile environment variables of each tool call are left out. Only the tool's own arguments are modelled.
- `goto` of the adapter and the `/page/open` handler are left out: they are a tool call plus Playwright page calls with no decision of the core in them.
- SessionManager.ts:80-85, the `meta.json` write, is left out: it is file I/O whose failure is only logged.
- Logging (`src/utils/logger.ts`), authentication, `/health`, request-schema validation with zod and the MCP server are outside the modelled core. A malformed body is a 400 from `/page/open` and `/page/snapshot`, which use `safeParse` (api.ts:67, api.ts:101). Click, fill, press and wait call `parse` outside their `try` (api.ts:159, 176, 193, 210), so the ZodError reaches Fastify's default error handler, which answers 500.
- Common.NatToString and Common.IntToString: JavaScript writes integers of 10^21 and above in exponent notation (`1e+21`); the model always writes plain decimal digits. This affects `Sessions.CapacityMessage` only for such a `MAX_SESSIONS`.
- Concurrency is not modelled. Each handler runs atomically. The awaits between the capacity check and the insert, or inside the reaper's iteration, could interleave in the service.
- Sessions.Session: sessions are values in the registry's map, not shared objects. A write through an old handle after the session was closed (the snapshot handler's ref-map swap) changes nothing here, which matches the fact that it reaches no registered entry.
- Sessions.SessionManager.CreateSession: an 8-character uuid prefix that collides with a registered id overwrites that entry, as the code does. The count bound is still kept.
- Sessions.ProfileDir: `path.join` normalisation is not modelled. The directory is the plain `/`-joined text.
- Sessions.SessionManager.constructor: the reaper's 10-second interval is not modelled. Ticks are explicit `ReaperTick` calls.
- SnapshotSerializer and AgentBrowserAdapter: lengths count Unicode characters, whereas JavaScript's `length`, `substring` and `slice` count UTF-16 code units. The two differ outside the Basic Multilingual Plane.
- SnapshotSerializer: `getSelector` (SnapshotSerializer.ts:104-112) is never called and is not modelled.
- AgentBrowserAdapter.ToActions: entries arrive in the order `Object.entries` yields them. That order is taken as given.
- AgentBrowserAdapter.SnapshotArgs: only integer depths are modelled. A fractional depth is printed differently by JavaScript.
- AgentBrowserAdapter.Snapshot: a `success: true` answer without `data` makes `data.refs` throw a TypeError (AgentBrowserAdapter.ts:169). The model fails with the V8 wording of that error; another engine's wording is not modelled.
- ApiRoutes.WaitDuration: `ms` is a real number, which covers every finite value `z.number()` accepts, fractional and negative ones included; NaN never gets past `z.number()`. Infinity (a JSON literal such as `1e400` parses to it) is not modelled: whether it passes depends on the zod version, which is not part of this model.
- ApiRoutes.PostSnapshot: the returned snapshot is the adapter's legacy shape. It is returned as the response body and not wrapped in a `Reply` status.
