/** From the injector to the report: the passes and tools that share the map file, run one after the other. */
module MapPipeline {
  import opened BlockNumbering
  import MapFile
  import opened MapFormat
  import MapParse
  import opened Options

  method WriteRecord(w: MapFile.MapFile, r: Record)
    requires w.Valid()
    modifies w
    ensures w.Valid() && w.written == old(w.written) + [r]
  {
    match r
    case ModuleName(name) => w.WriteModuleName(name);
    case FunctionStart(name, relPath) => w.WriteFunction(name, relPath);
    case BasicBlock => w.WriteBasicBlock();
    case Instruction => w.WriteInstruction();
    case DInstruction(path, line) => w.WriteDInstruction(path, line);
    case FaultCandidate(name) => w.WriteFaultCandidate(name);
    case FaultInjected(name) => w.WriteFaultInjected(name);
  }

  method WriteFile(name: Str, records: seq<Record>) returns (file: seq<Byte>)
    ensures file == AllBytes(NOTHING, [ModuleName(name)] + records)
  {
    var w := new MapFile.MapFile(name);
    for i := 0 to |records|
      invariant fresh(w) && w.Valid() && w.written == [ModuleName(name)] + records[..i]
    {
      WriteRecord(w, records[i]);
    }
    assert records[..|records|] == records;
    file := w.file;
  }

  /** The k-th row of the report is about the k-th instrumented block of the module, in the function it belongs to, and
      its number is the one in the block's decision point and fault logger. */
  method InstrumentAndReport(far: Far, name: Str, m: seq<Function>) returns (o: Output, rows: seq<Row>)
    requires AfterAll(NOTHING, FileRecords(name, m)).next <= INT_LIMIT && forall r :: r in FileRecords(name, m) ==> Representable(r)
    ensures |rows| == |o.decisions| == |o.loggers| == |AllBlocks(m)|
    ensures forall k :: 0 <= k < |rows| ==>
              rows[k] == RowOf(k + 1, BlockFunctions(m)[k], AllBlocks(m)[k]) && o.decisions[k] == o.loggers[k] == rows[k].index
  {
    o := InstrumentModule(m);
    var file := WriteFile(name, o.records);
    var records, error := MapParse.ParseFile(far, file);
    var printer := new Printer();
    printer.Print(records);
    rows := printer.c.rows;
    ReportDescribesBlocks(far, name, m);
    RowsNumbered(m, 1);
  }
}
