# Preview sandbox and inspector of MyEditor, in Dafny

MyEditor is a single React component: a code playground in which the user edits HTML,
CSS and JavaScript in three buffers and sees the result in a sandboxed `iframe`. This
project models the part of the component that has protocol structure:

- **the document compiler** — the template that turns the three buffers into the
  frame's `srcDoc`: the user CSS, then an injected `.__inspect-hover` rule, the user HTML
  as the body, then one script element holding a runtime shim followed by the user JS
  (`DocumentCompiler`, with the document as a sequence of tagged segments and `Render`
  concatenating their texts);
- **the runtime shim** inside the frame — `console.log`/`console.error` replaced by
  functions that post the arguments joined with a space to the host, and the inspector
  state machine over `inspectEnabled` and `lastEl`, which moves the `__inspect-hover`
  class from element to element and, on a click, posts an `ELEMENT_SELECTED` snapshot
  (`Shim`: step functions over `ShimState` as the specification, class `Runtime` as the
  shim itself; `Dom`: elements, class lists and the snapshot);
- **the host bridge** — the page's `message` handler that appends `log`/`error` texts to
  `logs` and stores a picked element in `selectedEl` while leaving inspect mode,
  `toggleInspect` which posts `INSPECT_ON`/`INSPECT_OFF` into the frame, and the build
  effect which empties `logs` whenever the buffers change (`Host`: step functions over
  `HostState`, class `Bridge` with the component's state cells);
- **the two sides together** (`Playground`): what the host's log shows after the frame's
  script runs, and when the host's inspect mode and the frame's `inspectEnabled` agree.

Messages are the `Protocol.Message` datatype: one variant per `type` the code compares
against, each with its payload, and `Unknown` for every other `type`. Posting a message
and its asynchronous delivery are modelled as applying the receiver's handler to it, in
posting order. `Wrappers` holds `Option`; `Text` holds `Join` (`Array.prototype.join`),
its inverse `Split`, and ASCII `toLowerCase`.

Where the written description of the system and the code differ, the model follows the
code: the host does not check the origin of messages or drop those of a superseded frame
(it ignores every type other than `log`, `error` and
`ELEMENT_SELECTED`); uncaught exceptions in the frame are not relayed (only
`console.error` is replaced); `INSPECT_OFF` clears the tracked element's highlight whether
or not the inspector was armed; and the picked element's `className` is the element's whole
class attribute, highlight class included (`Shim.OnClick` posts `Dom.PickAsWritten`). The
corrected report, which leaves the highlight class out, is `Shim.OnClickFixed` over `Dom.Pick`
(see Findings).

## Model

| member | source | states |
|---|---|---|
| DocumentCompiler.CompiledShape | src/App.jsx:43-103 | every input compiles (the compiler is total) to eleven segments of fixed kinds; the buffers fill exactly the CSS, HTML and JS segments |
| DocumentCompiler.CompiledOrder | src/App.jsx:43-103 | each buffer and each injected piece occurs exactly once; user CSS before the hover rule, user HTML before the shim, the shim before the user JS, and only template text after the JS |
| DocumentCompiler.CompileInjective | src/App.jsx:43-103 | two buffer bundles compile to the same segment list exactly when they are equal: the segments depend on the three buffers and on nothing else (the rendered string does not have this property, see `SrcDocNotInjective`) |
| DocumentCompiler.SrcDocText | src/App.jsx:43-103 | the `srcDoc` string is the template's fixed texts with the CSS, HTML and JS buffers in their places, in closed form |
| DocumentCompiler.RenderEleven | src/App.jsx:43-103 | the text of an eleven-segment document is its eleven texts concatenated in order |
| DocumentCompiler.SeamShift | src/App.jsx:55-99 | HTML that contains the script opening, the shim and the JS indentation can hand its tail to the JS buffer without changing a character of `srcDoc` |
| DocumentCompiler.SrcDocNotInjective | src/App.jsx:55-99 | two different buffer bundles whose `srcDoc` strings are identical |
| DocumentCompiler.Layout | src/App.jsx:43-103 | in the rendered text the CSS, hover rule, HTML, shim and JS each sit at their own offsets, in that order, and only the closing tags follow the JS |
| DocumentCompiler.SrcDocLayout | src/App.jsx:46-100 | the compiled document has that layout, with the `.__inspect-hover` rule, the whole shim script and the closing tags as its injected texts |
| DocumentCompiler.RenderSlice | src/App.jsx:43-103 | the text of each segment is found between its offset and the next one in the rendered document |
| DocumentCompiler.OffsetMonotone | src/App.jsx:43-103 | later segments start no earlier in the text than earlier ones |
| DocumentCompiler.LastSegment | src/App.jsx:100-103 | the last segment's text ends the document |
| DocumentCompiler.StyleLayout | src/App.jsx:46-52 | the user CSS sits before the injected highlight rule in the style element |
| DocumentCompiler.BodyLayout | src/App.jsx:54-97 | the user HTML sits before the shim script |
| DocumentCompiler.ScriptLayout | src/App.jsx:97-103 | the user JS follows the shim and only the closing tags follow it |
| Text.Split | src/App.jsx:61-62 | splitting yields at least one piece and no piece holds the separator |
| Text.JoinSplit | src/App.jsx:61-62 | joining the pieces of a split with the separator gives back the text |
| Text.SplitJoin | src/App.jsx:61-62 | splitting the space-join of space-free parts gives back exactly those parts |
| Text.ToLower | src/App.jsx:89 | the result has the input's length and every character is the ASCII lower-case form of the input's |
| Text.ToLowerNormal | src/App.jsx:89 | a lower-cased tag holds no upper-case letter and lower-casing it again changes nothing |
| Protocol.TypeOf | src/App.jsx:68-69 | for well-formed messages the wire `type` is one of the five known types exactly when the message is not `Unknown` |
| Protocol.TypeDecidesVariant | src/App.jsx:109-113 | for well-formed messages the `type` field alone decides which variant a message is |
| Shim.ConsoleTextSplits | src/App.jsx:61-62 | the posted text keeps every argument, in order: split at spaces it gives back the arguments when none holds a space |
| Shim.ConsolePosts | src/App.jsx:58-62 | a console call posts exactly one `log` or `error` message carrying the joined arguments and changes nothing else |
| Shim.InspectOnArms | src/App.jsx:67-68 | `INSPECT_ON` sets `inspectEnabled` and changes nothing else |
| Shim.InspectOffDisarms | src/App.jsx:69-72 | `INSPECT_OFF`, in any state, clears `inspectEnabled`, takes the highlight off exactly the tracked element, sends nothing, and leaves nothing highlighted when only the tracked element was |
| Shim.OtherMessagesIgnored | src/App.jsx:67-73 | any other message leaves the shim unchanged |
| Shim.DisarmedIgnoresPointer | src/App.jsx:75-83 | while disarmed a move changes nothing and a click changes nothing and is not swallowed |
| Shim.ArmedMoveHighlightsTarget | src/App.jsx:75-80 | while armed a move unhighlights the tracked element, highlights and tracks the target; if only the tracked element was highlighted, the target is now the only one |
| Shim.ArmedClickPicks | src/App.jsx:82-97 | while armed a click is swallowed, posts exactly one `ELEMENT_SELECTED` with the as-written snapshot of the clicked element (its whole class list), disarms and takes the highlight off the tracked element, leaving none when only it was highlighted |
| Shim.ClearTrackedEffect | src/App.jsx:71 | removing the tracked element's highlight drops exactly it from the highlighted set and changes no element in anything but that class |
| Shim.StepKeeps | src/App.jsx:64-97 | every event keeps the tracked element in the document, touches elements only in the highlight class, and only appends to the outbox |
| Shim.StepKeepsSingleHighlight | src/App.jsx:64-97 | every event keeps "only the tracked element is highlighted" |
| Shim.RunKeepsSingleHighlight | src/App.jsx:64-97 | over any run of events at most the tracked element is ever highlighted |
| Shim.MoveThenClickLeaksHighlight | src/App.jsx:75-97 | as written, a move onto an element followed by a click on it sends a class string whose tokens include `__inspect-hover`, whatever the element's own classes |
| Shim.MoveThenFixedClickReportsElement | src/App.jsx:88-93 | the corrected click after the same move sends the snapshot of the element as it was before the move, whose class tokens never include `__inspect-hover`; apart from the outbox, its new state (document, `enabled`, `lastEl`) is the as-written click's |
| Shim.ArmedMovesEndOnLast | src/App.jsx:75-80 | moving the armed pointer over A, B, ..., Z leaves exactly Z highlighted and tracked |
| Shim.Runtime.constructor | src/App.jsx:64-65 | the shim starts disarmed, tracking nothing, having sent nothing |
| Shim.Runtime.ClearLast | src/App.jsx:71 | removes the highlight class from the tracked element, if any |
| Shim.Runtime.ReceiveMessage | src/App.jsx:67-73 | the frame's `message` listener; its new state is `OnMessage` of the old, and after `INSPECT_OFF` nothing is highlighted |
| Shim.Runtime.MouseMove | src/App.jsx:75-80 | the `mousemove` listener; its new state is `OnMouseMove` of the old, and an armed move leaves only the target highlighted |
| Shim.Runtime.Click | src/App.jsx:82-97 | the capture-phase `click` listener; its new state and swallowed flag are `OnClick` of the old; when armed it posts the as-written snapshot of the clicked element as it was before the click, and leaves nothing highlighted when only the tracked element was |
| Shim.Runtime.ConsoleLog | src/App.jsx:61 | the replaced `console.log` appends one `log` message with the joined arguments |
| Shim.Runtime.ConsoleError | src/App.jsx:62 | the replaced `console.error` appends one `error` message with the joined arguments |
| Dom.AddClass | src/App.jsx:79 | `classList.add`: the class is present afterwards, every other class is as before, the old list is a prefix, and at most one token is appended |
| Dom.RemoveClass | src/App.jsx:71 | `classList.remove`: the class is absent afterwards and every other class is as before |
| Dom.RemoveAfterAdd | src/App.jsx:77-79 | adding then removing a class gives the same list as removing it alone, so the highlight never disturbs the element's own classes or their order |
| Dom.RemoveTwice | src/App.jsx:96 | removing a class twice is removing it once |
| Dom.HighlightOnlyTouchesHover | src/App.jsx:77-79 | highlighting and unhighlighting change an element only in the highlight class |
| Dom.StyleOrDash | src/App.jsx:92 | `styles` is the style attribute when present and non-empty, an em dash when absent or empty, and never empty |
| Dom.HighlightKeepsTokens | src/App.jsx:77-79 | adding or removing the highlight class keeps every class token free of spaces |
| Dom.PickAsWrittenShowsHighlight | src/App.jsx:91 | the as-written class string of a highlighted element splits back into its class list, which holds `__inspect-hover` |
| Dom.PickOmitsHighlight | src/App.jsx:91 | the corrected class string never holds `__inspect-hover` as a token |
| Dom.PickIgnoresHighlight | src/App.jsx:88-93 | the pick of an element is the same whether or not the inspector highlighted it |
| Dom.PickAsWrittenLeaksHighlight | src/App.jsx:91 | as written, a hovered `<DIV id="x" class="y z">` is reported with class `y z __inspect-hover`; the corrected pick reports `div`, `x`, `y z`, em dash |
| Host.HandleAppendsLog | src/App.jsx:109-111 | a `log` or `error` message appends its text to `logs` and changes nothing else |
| Host.HandleReplacesSelection | src/App.jsx:113-116 | `ELEMENT_SELECTED` replaces `selectedEl` wholesale, clears `inspectMode`, and leaves `logs` alone |
| Host.HandleIgnoresOthers | src/App.jsx:108-117 | a message whose type is none of `log`, `error`, `ELEMENT_SELECTED` changes nothing |
| Host.DeliverAppendsLogs | src/App.jsx:108-111 | a run of messages appends the texts of its `log`/`error` messages to `logs`, in arrival order |
| Host.DeliverSplit | src/App.jsx:108-117 | handling two runs one after the other is handling their concatenation |
| Host.DeliverSelects | src/App.jsx:113-116 | after a run, `selectedEl` is the last pick (or unchanged) and inspect mode is off if any pick arrived |
| Host.ToggleWithoutFrame | src/App.jsx:125-126 | with no frame, `toggleInspect` changes nothing and sends nothing |
| Host.ToggleSendsCommand | src/App.jsx:128-133 | with a frame, it sends `INSPECT_OFF` if inspect mode is on, else `INSPECT_ON`, then flips inspect mode and nothing else |
| Host.ToggleTwice | src/App.jsx:124-134 | two toggles restore the whole host state, logs and selection included, and send opposite commands |
| Host.RebuildResetsLogs | src/App.jsx:40-43 | a rebuild empties `logs` and loads the new document, keeps selection and inspect mode, and afterwards `logs` holds only what arrives later |
| Host.Bridge.constructor | src/App.jsx:15-30 | the mounted component: empty logs, no selection, inspect mode off, the initial buffers compiled |
| Host.Bridge.BuildPreview | src/App.jsx:40-43 | the build effect: `logs` becomes empty and `srcDoc` the compiled document; nothing else changes |
| Host.Bridge.Receive | src/App.jsx:108-117 | the page's `message` handler; its new state is `Handle` of the old |
| Host.Bridge.ToggleInspect | src/App.jsx:124-134 | `toggleInspect`: returns the command posted, if any, and flips inspect mode when a frame exists |
| Playground.CallsPostTheirTexts | src/App.jsx:58-62 | the shim posts one message per console call, whose texts are the calls' texts in call order |
| Playground.LogShowsScriptOutput | src/App.jsx:109-111 | after a rebuild the log holds exactly the texts of the new script's console calls, in order |
| Playground.TwoLogsInOrder | src/App.jsx:109-111 | `console.log("a"); console.log("b")` leaves the log as exactly `["a", "b"]` |
| Playground.ToggleKeepsSync | src/App.jsx:124-134 | when host and frame agree, a toggle and its delivered command keep them agreeing |
| Playground.PickKeepsSync | src/App.jsx:113-116 | a pick, once delivered, leaves both sides off and the host holding the as-written snapshot of the clicked element, logs unchanged |
| Playground.HostShowsHighlightClass | src/App.jsx:113-116 | as written, after an armed move onto an element and a click on it, the host's selected record names `__inspect-hover` among its class tokens |
| Playground.RebuildSyncOnlyWhenIdle | src/App.jsx:64 | a rebuilt frame starts disarmed while the host keeps its inspect mode: they agree exactly when inspect mode was off |

## Left out

- The Monaco editor, the file tabs, the mobile-view switch and the rendered JSX (src/App.jsx:193-267), including the display fallbacks of the inspector panel: user interface.
- Persistence of the buffers in `localStorage` and its JSON encoding (src/App.jsx:18-27, 35-37): browser I/O; the constructor of `Host.Bridge` takes the initial buffers as a parameter.
- The editor and terminal resize handlers (src/App.jsx:137-180) and fullscreen (src/App.jsx:183-191): floating-point layout arithmetic and browser calls.
- `postMessage` transport, the `'*'` target origin and the `sandbox` attribute: delivery is the receiver's handler applied in posting order. Messages from a superseded frame are delivered like any other, as in the code.
- React's asynchronous state updates: `toggleInspect` reads `inspectMode` from the last render, so two toggles within one render would both see the old value; the model reads the current state.
- The shim's script shares one `script` element and one top-level scope with the user JS: the model assumes the script parses and the shim is installed, that its variables `send`, `inspectEnabled` and `lastEl` and the replaced `console` functions are private to it, and that it sees every pointer event. A JS buffer that does not parse or redeclares one of those names leaves the frame with no console relay and no inspector while `toggleInspect` still flips inspect mode; user code that assigns those variables or stops the propagation of `mousemove` events changes the shim's behaviour. None of this is modelled.
- A rebuild whose `srcDoc` string equals the previous one: React keeps the frame as it is, so it does not reload, while `logs` is still emptied. `Host.Rebuild` always loads the new document. `SrcDocNotInjective` shows that two different buffer bundles can give the same string.
- How the browser parses the compiled document: a `</script>` or `<script>` inside a buffer, and script elements inside the HTML buffer (which run before the shim), are not modelled; the layout lemmas order the buffers in the document text, not script execution.
- `preventDefault` and `stopPropagation`: recorded only as the `swallowed` result of a click.
- Changes to the document by the user's script (elements added or removed, classes changed): the set of elements is fixed for the life of one frame. The single-highlight invariant is therefore stated for states where only the tracked element carries the highlight class, which a document whose author does not use that class starts in.
- Shim.ArmedClickPicks: elements are HTML elements, whose `className` is a string. For an SVG element (an `<svg>` or `<path>` in the HTML buffer) `className` is an `SVGAnimatedString` object, which `postMessage` cannot clone: the armed click is swallowed, posts nothing, and leaves the shim armed with the highlight in place, and the host stays in inspect mode. `OnClick` instead posts a snapshot and disarms for every target.
- Text.ToLower: lower-cases ASCII letters only, because the Unicode case mapping of `toLowerCase` is not modelled; built-in HTML tag names are ASCII.
- Dom.AddClass: the class list is a list of tokens; the parsing and re-serialisation of the `class` attribute by `DOMTokenList` (duplicate tokens, runs of whitespace) is not modelled.
- Console arguments: the string conversion of non-string console arguments (objects, numbers) is taken as given in `Arg.Value`.
- Message payloads whose shape does not match their `type` (a `log` whose `message` is an object): each variant pairs a type with its payload, and `Unknown` stands for the other types only. A value `Unknown(t)` with `t` one of the five known types denotes no message on the wire; `Host.Handle` ignores it, and the lemmas that speak about types require `WellFormed`.

## Findings

| source | as written | input that shows it | evidently intended | confidence | as-written member | corrected member |
|---|---|---|---|---|---|---|
| src/App.jsx:91 | `className: el.className` reports the whole class attribute, which still holds `__inspect-hover`, added by the `mousemove` that precedes the click and removed only after the snapshot is sent | an armed inspector, the pointer moved onto `<div id="x" class="y z">`, then a click: the snapshot's class is `y z __inspect-hover` | the element's own classes, `y z`, with the inspector's highlight class left out | medium; not executed | Shim.MoveThenClickLeaksHighlight | Shim.MoveThenFixedClickReportsElement |
