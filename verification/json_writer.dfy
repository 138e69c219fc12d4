/** The exporter's entry point: build the whole record tree first, and
    write it to the output file only once it is complete. */
module JsonWriter {
  import opened Wrappers
  import opened RdlModel
  import opened JsonValue
  import opened ExportJson

  /** The output file. `document` is what it holds: None until a document
      has been written to it. */
  class OutputFile {
    var document: Option<Json>

    constructor ()
      ensures document == None
    {
      document := None;
    }

    /** Opens the file for writing and dumps the document into it. */
    method Write(j: Json)
      modifies this
      ensures document == Some(j)
    {
      document := Some(j);
    }
  }

  /** Converts the top-level address map and writes the result. When the
      conversion fails, the error is returned and the file is left exactly
      as it was: it is never opened. */
  method ConvertToJson(top: Node, out: OutputFile) returns (r: Result<(), Error>)
    requires top.Container?
    modifies out
    ensures r.Ok? <==> ContainerResult(top).Ok?
    ensures r.Ok? ==> out.document == Some(ContainerResult(top).value)
    ensures r.Err? ==> r.error == ContainerResult(top).error && unchanged(out)
  {
    var built := ConvertAddrmapOrRegfile(top);
    if built.Err? {
      return Err(built.error);
    }
    out.Write(built.value);
    r := Ok(());
  }
}
