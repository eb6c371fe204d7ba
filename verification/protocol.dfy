/** The messages that cross the boundary between the host page and the preview frame.
    On the wire a message is an object `{ type, message }`; here each `type` that the code
    tests for is a variant carrying its payload, and every other `type` is `Unknown`. */
module Protocol {

  /** The record the inspector sends for a picked element. */
  datatype Snapshot = Snapshot(tag: string, id: string, className: string, styles: string)

  datatype Message =
    | Log(text: string)                    // type "log", frame to host
    | Error(text: string)                  // type "error", frame to host
    | InspectOn                            // type "INSPECT_ON", host to frame
    | InspectOff                           // type "INSPECT_OFF", host to frame
    | ElementSelected(snapshot: Snapshot)  // type "ELEMENT_SELECTED", frame to host
    | Unknown(kind: string)                // any other type

  const KnownTypes: set<string> := {"log", "error", "INSPECT_ON", "INSPECT_OFF", "ELEMENT_SELECTED"}

  /** The `type` field the message carries on the wire. */
  function TypeOf(m: Message): (t: string)
    ensures WellFormed(m) ==> (t in KnownTypes <==> !m.Unknown?)
  {
    match m
    case Log(_) => "log"
    case Error(_) => "error"
    case InspectOn => "INSPECT_ON"
    case InspectOff => "INSPECT_OFF"
    case ElementSelected(_) => "ELEMENT_SELECTED"
    case Unknown(kind) => kind
  }

  /** An `Unknown` message stands only for a `type` outside the five the code recognises. */
  predicate WellFormed(m: Message)
  {
    m.Unknown? ==> m.kind !in KnownTypes
  }

  /** For well-formed messages the wire `type` alone decides the variant, as the
      handlers in the page and in the frame assume when they compare `e.data.type`. */
  lemma TypeDecidesVariant(m1: Message, m2: Message)
    requires WellFormed(m1) && WellFormed(m2)
    requires TypeOf(m1) == TypeOf(m2)
    ensures m1.Log? == m2.Log? && m1.Error? == m2.Error? && m1.InspectOn? == m2.InspectOn?
    ensures m1.InspectOff? == m2.InspectOff? && m1.ElementSelected? == m2.ElementSelected?
    ensures m1.Unknown? ==> m1 == m2
  {
  }
}
