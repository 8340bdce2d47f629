/** The "capture" capability module: the screens connected to the server. */
module Capture {
  import opened Values

  /** A CaptureModule instance; its only state is the flag its constructor sets. */
  datatype CaptureModule = CaptureModule(requiresEncryption: bool) {

    /** The identifiers of the connected screens: two screens, numbered from
        zero, so the identifiers are distinct. */
    function GetScreens(): (r: Json)
      ensures r.Arr? && |r.items| == 2
      ensures forall i :: 0 <= i < |r.items| ==> r.items[i] == Num(i)
      ensures r.items[0] != r.items[1]
    {
      Arr([Num(0), Num(1)])
    }

    /** getattr on an instance: the one published operation takes no argument
        besides self; `requires_encryption` is data, not an operation. */
    function GetAttr(name: string): (a: Option<Attribute>)
      ensures a.Some? <==> name in {"get_screens", "requires_encryption"}
      ensures (a.Some? && a.value.Operation?) <==> name == "get_screens"
      ensures name == "get_screens" ==> a == Some(Operation(0, GetScreens()))
      ensures name == "requires_encryption" ==> a == Some(Field(Bool(requiresEncryption)))
    {
      if name == "get_screens" then Some(Operation(0, GetScreens()))
      else if name == "requires_encryption" then Some(Field(Bool(requiresEncryption)))
      else None
    }
  }

  /** The constructor: a fresh instance does not require encryption. */
  function NewCaptureModule(): (m: CaptureModule)
    ensures !m.requiresEncryption
  {
    CaptureModule(false)
  }
}
