/** The "info" capability module: metadata about the environment and the
    program, served as fixed fixture values. */
module Info {
  import opened Values

  /** An InfoModule instance. Its only state is the flag its constructor sets;
      being a value, no operation can change it. */
  datatype InfoModule = InfoModule(requiresEncryption: bool) {

    /** Information about the Arcade Virtual System: a one-element list whose
        object has exactly seven string fields, `ext` being "-1". */
    function Avs(): (r: Json)
      ensures r.Arr? && |r.items| == 1 && r.items[0].Obj?
      ensures r.items[0].fields.Keys == {"model", "ext", "dest", "spec", "rev", "services", "version"}
      ensures forall k :: k in r.items[0].fields ==> r.items[0].fields[k].Str?
      ensures r.items[0].fields["ext"] == Str("-1")
    {
      Arr([Obj(map[
        "model" := Str("model"),
        "ext" := Str("-1"),
        "dest" := Str("dest"),
        "spec" := Str("spec"),
        "rev" := Str("rev"),
        "services" := Str("services"),
        "version" := Str("version")
      ])])
    }

    /** Information about the launcher: a one-element list whose object has
        five fields, `args` being a list of three entries. */
    function Launcher(): (r: Json)
      ensures r.Arr? && |r.items| == 1 && r.items[0].Obj?
      ensures r.items[0].fields.Keys == {"version", "compile_date", "compile_time", "system_time", "args"}
      ensures r.items[0].fields["args"].Arr? && |r.items[0].fields["args"].items| == 3
    {
      Arr([Obj(map[
        "version" := Str("version"),
        "compile_date" := Str("compile_date"),
        "compile_time" := Str("compile_time"),
        "system_time" := Str("system_time"),
        "args" := Arr([Str("args"), Str("args"), Str("args")])
      ])])
    }

    /** getattr on an instance: the two published operations take no argument
        besides self; `requires_encryption` is data, not an operation. */
    function GetAttr(name: string): (a: Option<Attribute>)
      ensures a.Some? <==> name in {"avs", "launcher", "requires_encryption"}
      ensures (a.Some? && a.value.Operation?) <==> name in {"avs", "launcher"}
      ensures a.Some? && a.value.Operation? ==> a.value.arity == 0
      ensures name == "avs" ==> a == Some(Operation(0, Avs()))
      ensures name == "launcher" ==> a == Some(Operation(0, Launcher()))
      ensures name == "requires_encryption" ==> a == Some(Field(Bool(requiresEncryption)))
    {
      if name == "avs" then Some(Operation(0, Avs()))
      else if name == "launcher" then Some(Operation(0, Launcher()))
      else if name == "requires_encryption" then Some(Field(Bool(requiresEncryption)))
      else None
    }
  }

  /** The constructor: a fresh instance does not require encryption. */
  function NewInfoModule(): (m: InfoModule)
    ensures !m.requiresEncryption
  {
    InfoModule(false)
  }
}
