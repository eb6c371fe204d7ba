/** The host side of the preview: the page's `message` handler, `toggleInspect`, and the
    rebuild that runs whenever the buffers change. `HostState` and its step functions are
    the specification; class `Bridge` holds the component's state cells. */
module Host {
  import opened Wrappers
  import opened Protocol
  import opened DocumentCompiler

  /** `logs`, `selectedEl` and `inspectMode` are the component's state cells, `hasFrame`
      whether the preview frame is mounted, `srcDoc` the document the frame shows. */
  datatype HostState = HostState(
    logs: seq<string>,
    selected: Option<Snapshot>,
    inspectMode: bool,
    hasFrame: bool,
    srcDoc: string)

  /** The page's `message` handler. */
  function Handle(h: HostState, m: Message): HostState
  {
    match m
    case Log(text) => h.(logs := h.logs + [text])
    case Error(text) => h.(logs := h.logs + [text])
    case ElementSelected(snapshot) => h.(selected := Some(snapshot), inspectMode := false)
    case _ => h
  }

  /** `toggleInspect`: the new state and the command posted into the frame, if any. */
  function Toggle(h: HostState): (HostState, Option<Message>)
  {
    if !h.hasFrame then (h, None)
    else (h.(inspectMode := !h.inspectMode), Some(if h.inspectMode then InspectOff else InspectOn))
  }

  /** The effect that runs when the buffers change: the log is emptied and the frame gets
      the newly compiled document. */
  function Rebuild(h: HostState, files: Files): HostState
  {
    h.(logs := [], srcDoc := SrcDoc(files))
  }

  /** The host state after handling `msgs` in arrival order. */
  function Deliver(h: HostState, msgs: seq<Message>): HostState
    decreases |msgs|
  {
    if msgs == [] then h else Deliver(Handle(h, msgs[0]), msgs[1..])
  }

  /** The texts of the `log` and `error` messages among `msgs`, in order. */
  function LogTexts(msgs: seq<Message>): seq<string>
  {
    if msgs == [] then []
    else (if msgs[0].Log? || msgs[0].Error? then [msgs[0].text] else []) + LogTexts(msgs[1..])
  }

  /** The snapshot of the last `ELEMENT_SELECTED` message among `msgs`, if there is one. */
  function LastPick(msgs: seq<Message>): Option<Snapshot>
  {
    if msgs == [] then None
    else if msgs[|msgs| - 1].ElementSelected? then Some(msgs[|msgs| - 1].snapshot)
    else LastPick(msgs[..|msgs| - 1])
  }

  /** A `log` or `error` message appends its text to the log and changes nothing else. */
  lemma HandleAppendsLog(h: HostState, m: Message)
    requires m.Log? || m.Error?
    ensures Handle(h, m).logs == h.logs + [m.text]
    ensures Handle(h, m).(logs := h.logs) == h
  {
  }

  /** An `ELEMENT_SELECTED` message replaces the selected record wholesale with its payload,
      ends inspect mode and leaves the log alone. */
  lemma HandleReplacesSelection(h: HostState, snapshot: Snapshot)
    ensures Handle(h, ElementSelected(snapshot)).selected == Some(snapshot)
    ensures !Handle(h, ElementSelected(snapshot)).inspectMode
    ensures Handle(h, ElementSelected(snapshot)).(selected := h.selected, inspectMode := h.inspectMode) == h
  {
  }

  /** A message whose `type` is none of `log`, `error`, `ELEMENT_SELECTED` changes nothing. */
  lemma HandleIgnoresOthers(h: HostState, m: Message)
    requires WellFormed(m)
    requires TypeOf(m) != "log" && TypeOf(m) != "error" && TypeOf(m) != "ELEMENT_SELECTED"
    ensures Handle(h, m) == h
  {
  }

  /** Handling a run of messages appends the texts of its `log` and `error` messages to the
      log, in arrival order, with nothing dropped, merged or reordered. */
  lemma {:induction false} DeliverAppendsLogs(h: HostState, msgs: seq<Message>)
    ensures Deliver(h, msgs).logs == h.logs + LogTexts(msgs)
    decreases |msgs|
  {
    if msgs != [] {
      DeliverAppendsLogs(Handle(h, msgs[0]), msgs[1..]);
    }
  }

  lemma {:induction false} DeliverSplit(h: HostState, a: seq<Message>, b: seq<Message>)
    ensures Deliver(h, a + b) == Deliver(Deliver(h, a), b)
    decreases |a|
  {
    if a == [] {
      assert a + b == b;
    } else {
      assert (a + b)[0] == a[0] && (a + b)[1..] == a[1..] + b;
      DeliverSplit(Handle(h, a[0]), a[1..], b);
    }
  }

  /** After a run of messages the selected record is the payload of the last pick among
      them (or what it was, if none), and inspect mode is off if any pick arrived. */
  lemma {:induction false} DeliverSelects(h: HostState, msgs: seq<Message>)
    ensures Deliver(h, msgs).selected == (if LastPick(msgs).Some? then LastPick(msgs) else h.selected)
    ensures Deliver(h, msgs).inspectMode == (h.inspectMode && LastPick(msgs).None?)
    ensures Deliver(h, msgs).hasFrame == h.hasFrame && Deliver(h, msgs).srcDoc == h.srcDoc
    decreases |msgs|
  {
    if msgs != [] {
      var n := |msgs| - 1;
      assert msgs == msgs[..n] + [msgs[n]];
      DeliverSplit(h, msgs[..n], [msgs[n]]);
      DeliverSelects(h, msgs[..n]);
      assert Deliver(Deliver(h, msgs[..n]), [msgs[n]]) == Handle(Deliver(h, msgs[..n]), msgs[n]) by {
        assert [msgs[n]][1..] == [];
      }
    }
  }

  /** With no frame mounted, toggling changes nothing and sends nothing. */
  lemma ToggleWithoutFrame(h: HostState)
    requires !h.hasFrame
    ensures Toggle(h) == (h, None)
  {
  }

  /** With a frame, toggling sends exactly one command, `INSPECT_OFF` when inspect mode was
      on and `INSPECT_ON` when it was off, then flips inspect mode and nothing else. */
  lemma ToggleSendsCommand(h: HostState)
    requires h.hasFrame
    ensures Toggle(h).1 == Some(if h.inspectMode then InspectOff else InspectOn)
    ensures Toggle(h).0.inspectMode == !h.inspectMode
    ensures Toggle(h).0.(inspectMode := h.inspectMode) == h
  {
  }

  /** Two toggles in a row restore the state, the log and the selection included, and
      send opposite commands. */
  lemma ToggleTwice(h: HostState)
    ensures Toggle(Toggle(h).0).0 == h
    ensures h.hasFrame ==> {Toggle(h).1.value, Toggle(Toggle(h).0).1.value} == {InspectOn, InspectOff}
  {
  }

  /** A rebuild empties the log and loads the new document, and leaves the selection,
      inspect mode and the frame as they were; whatever arrives afterwards is all the log
      holds. */
  lemma RebuildResetsLogs(h: HostState, files: Files, later: seq<Message>)
    ensures Rebuild(h, files).logs == []
    ensures Rebuild(h, files).srcDoc == SrcDoc(files)
    ensures Rebuild(h, files).(logs := h.logs, srcDoc := h.srcDoc) == h
    ensures Deliver(Rebuild(h, files), later).logs == LogTexts(later)
  {
    DeliverAppendsLogs(Rebuild(h, files), later);
  }

  /** The component's state cells. */
  class Bridge {
    var logs: seq<string>
    var selectedEl: Option<Snapshot>
    var inspectMode: bool
    var hasFrame: bool
    var srcDoc: string

    function State(): HostState
      reads this
    {
      HostState(logs, selectedEl, inspectMode, hasFrame, srcDoc)
    }

    /** The component once mounted: the build effect has run for the initial buffers. */
    constructor (files: Files, frameMounted: bool)
      ensures State() == HostState([], None, false, frameMounted, SrcDoc(files))
    {
      logs := [];
      selectedEl := None;
      inspectMode := false;
      hasFrame := frameMounted;
      srcDoc := SrcDoc(files);
    }

    /** The build effect, run on every change of the buffers. */
    method BuildPreview(files: Files)
      modifies this
      ensures State() == Rebuild(old(State()), files)
      ensures logs == [] && srcDoc == SrcDoc(files)
      ensures selectedEl == old(selectedEl) && inspectMode == old(inspectMode) && hasFrame == old(hasFrame)
    {
      logs := [];
      srcDoc := SrcDoc(files);
    }

    /** The `message` handler. */
    method Receive(m: Message)
      modifies this
      ensures State() == Handle(old(State()), m)
      ensures (m.Log? || m.Error?) ==> logs == old(logs) + [m.text]
      ensures m.ElementSelected? ==> selectedEl == Some(m.snapshot) && !inspectMode && logs == old(logs)
    {
      if m.Log? || m.Error? {
        logs := logs + [m.text];
      }
      if m.ElementSelected? {
        selectedEl := Some(m.snapshot);
        inspectMode := false;
      }
    }

    /** `toggleInspect`; `sent` is the command posted into the frame. */
    method ToggleInspect() returns (sent: Option<Message>)
      modifies this
      ensures (State(), sent) == Toggle(old(State()))
      ensures !hasFrame ==> sent == None && State() == old(State())
      ensures hasFrame ==> sent == Some(if old(inspectMode) then InspectOff else InspectOn)
      ensures hasFrame ==> inspectMode == !old(inspectMode)
    {
      if !hasFrame {
        return None;
      }
      sent := Some(if inspectMode then InspectOff else InspectOn);
      inspectMode := !inspectMode;
    }
  }
}
