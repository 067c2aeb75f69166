/**
 * Burning a vector layer into a raster (`Raster::VectortoRaster`) and the
 * CSV legend written beside the raster for text fields
 * (`Raster::OutputCSVFile`).
 *
 * A vector data source is a list of named layers; a layer carries the type
 * of the field being burnt (as read through its feature 0), its spatial
 * reference as WKT, its envelope and its features in reading order. A
 * feature's geometry is only identified (`Shape`): the rasteriser that
 * reads it is GDAL's and is not part of this model.
 */
module Vector {
  import opened Base
  import opened RasterTypes
  import opened Interface
  import opened ExtentRect
  import opened Meta

  /** OGRFieldType. */
  datatype FieldKind =
    | FieldInteger | FieldIntegerList | FieldReal | FieldRealList
    | FieldString | FieldStringList | FieldWideString | FieldWideStringList
    | FieldBinary | FieldDate | FieldTime | FieldDateTime
    | FieldInteger64 | FieldInteger64List

  /** A feature geometry, known only by identity. */
  datatype Shape = Shape(id: nat)

  /** A feature: its FID, its geometry if any, and the burnt field read as a double and as text. */
  datatype Feature = Feature(fid: int, geometry: Option<Shape>, valueAsDouble: real, valueAsString: string)

  /** OGREnvelope. */
  datatype Envelope = Envelope(minX: real, maxX: real, minY: real, maxY: real)

  /**
   * A layer. `fieldType` is the type of the burnt field, missing when the
   * layer has no feature 0 or that feature has no such field.
   */
  datatype Layer = Layer(name: string, fieldType: Option<FieldKind>, srsWkt: string,
                         extent: Envelope, features: seq<Feature>)

  datatype DataSource = DataSource(layers: seq<Layer>)

  /** The first layer of the given name. */
  function FindLayer(layers: seq<Layer>, name: string): (r: Option<Layer>)
    ensures r.Some? ==> r.value in layers && r.value.name == name
    ensures r.None? ==> forall l | l in layers :: l.name != name
  {
    if |layers| == 0 then None
    else if layers[0].name == name then Some(layers[0])
    else FindLayer(layers[1..], name)
  }

  /** The layer found is the first one with the name. */
  lemma {:induction false} FindLayerFirst(layers: seq<Layer>, name: string, i: nat)
    requires i < |layers| && layers[i].name == name
    requires forall j | 0 <= j < i :: layers[j].name != name
    ensures FindLayer(layers, name) == Some(layers[i])
  {
    if i > 0 {
      FindLayerFirst(layers[1..], name, i - 1);
    }
  }

  /*
   * The field-type decision.
   */

  /**
   * The switch on the field type as written: a text field and an integer
   * field give a Byte raster, and everything else throws, the real field
   * included, since its case has no `break` and falls into `default`.
   */
  function FieldOutputTypeAsWritten(kind: FieldKind): (r: Result<DataType, Exception>)
    ensures r.Ok? <==> kind == FieldString || kind == FieldInteger
    ensures r.Ok? ==> r.value == Byte
    ensures r.Err? ==> r.error == RasterManagerException(VectorFieldNotValid)
  {
    match kind
    case FieldString => Ok(Byte)
    case FieldInteger => Ok(Byte)
    case _ => Err(RasterManagerException(VectorFieldNotValid))
  }

  /**
   * The switch with a `break` after the real case: each of the three kinds
   * the switch names is accepted with the type its case assigns, and only
   * the others throw.
   */
  function FieldOutputType(kind: FieldKind): (r: Result<DataType, Exception>)
    ensures r.Ok? <==> kind == FieldString || kind == FieldInteger || kind == FieldReal
    ensures r.Ok? ==> r.value == (if kind == FieldReal then Float64 else Byte)
    ensures r.Err? ==> r.error == RasterManagerException(VectorFieldNotValid)
  {
    match kind
    case FieldString => Ok(Byte)
    case FieldInteger => Ok(Byte)
    case FieldReal => Ok(Float64)
    case _ => Err(RasterManagerException(VectorFieldNotValid))
  }

  /**
   * The two decisions differ on the real field alone: as written it throws
   * although its case chose Float64.
   */
  lemma FieldFallThrough(kind: FieldKind)
    ensures FieldOutputTypeAsWritten(FieldReal) == Err(RasterManagerException(VectorFieldNotValid))
    ensures FieldOutputType(FieldReal) == Ok(Float64)
    ensures kind != FieldReal ==> FieldOutputTypeAsWritten(kind) == FieldOutputType(kind)
  {
  }

  /*
   * The burn lists.
   */

  /** The value burnt for a feature: its FID for a text field, else the field as a double. */
  function BurnValue(kind: FieldKind, f: Feature): real
  {
    if kind == FieldString then f.fid as real else f.valueAsDouble
  }

  /** The features that are burnt: those with a geometry, in layer order. */
  function Burnt(features: seq<Feature>): seq<Feature>
  {
    if |features| == 0 then []
    else
      var last := features[|features| - 1];
      Burnt(features[..|features| - 1]) + if last.geometry.Some? then [last] else []
  }

  /** The geometry list the loop builds. */
  function BurnShapes(features: seq<Feature>): seq<Shape>
  {
    if |features| == 0 then []
    else
      var last := features[|features| - 1];
      BurnShapes(features[..|features| - 1]) + if last.geometry.Some? then [last.geometry.value] else []
  }

  /** The value list the loop builds. */
  function BurnValues(kind: FieldKind, features: seq<Feature>): seq<real>
  {
    if |features| == 0 then []
    else
      var last := features[|features| - 1];
      BurnValues(kind, features[..|features| - 1]) + if last.geometry.Some? then [BurnValue(kind, last)] else []
  }

  /**
   * The burn-list loop of `VectortoRaster`: each feature in turn, skipping
   * those without a geometry, adds its geometry to one list and its burn
   * value to the other.
   */
  method BuildBurnList(kind: FieldKind, features: seq<Feature>) returns (shapes: seq<Shape>, values: seq<real>)
    ensures shapes == BurnShapes(features) && values == BurnValues(kind, features)
  {
    shapes, values := [], [];
    var k := 0;
    while k < |features|
      invariant 0 <= k <= |features|
      invariant shapes == BurnShapes(features[..k]) && values == BurnValues(kind, features[..k])
    {
      var f := features[k];
      assert features[..k + 1][..k] == features[..k];
      if f.geometry.Some? {
        shapes := shapes + [f.geometry.value];
        values := values + [BurnValue(kind, f)];
      }
      k := k + 1;
    }
    assert features[..k] == features;
  }

  /**
   * The two lists pair up: both have one entry per burnt feature, entry
   * `i` holding the geometry and the burn value of the `i`-th feature with
   * a geometry.
   */
  lemma {:induction false} BurnListsPairUp(kind: FieldKind, features: seq<Feature>)
    ensures |BurnShapes(features)| == |BurnValues(kind, features)| == |Burnt(features)|
    ensures forall i :: 0 <= i < |Burnt(features)| ==>
      Burnt(features)[i].geometry.Some? &&
      BurnShapes(features)[i] == Burnt(features)[i].geometry.value &&
      BurnValues(kind, features)[i] == BurnValue(kind, Burnt(features)[i])
  {
    if |features| > 0 {
      BurnListsPairUp(kind, features[..|features| - 1]);
    }
  }

  /** A feature is burnt exactly when it is in the layer and has a geometry. */
  lemma {:induction false} BurntExactlyWithGeometry(features: seq<Feature>, f: Feature)
    ensures f in Burnt(features) <==> f in features && f.geometry.Some?
  {
    if |features| > 0 {
      var init := features[..|features| - 1];
      BurntExactlyWithGeometry(init, f);
      assert features == init + [features[|features| - 1]];
    }
  }

  /** Burning keeps layer order: the burnt features of two stretches of a layer follow one another. */
  lemma {:induction false} BurntKeepsOrder(a: seq<Feature>, b: seq<Feature>)
    ensures Burnt(a + b) == Burnt(a) + Burnt(b)
    decreases |b|
  {
    if |b| > 0 {
      var b', y := b[..|b| - 1], b[|b| - 1];
      assert (a + b)[..|a + b| - 1] == a + b';
      BurntKeepsOrder(a, b');
    } else {
      assert a + b == a;
    }
  }

  /*
   * The CSV legend.
   */

  function DigitChar(d: nat): char
    requires d < 10
  {
    "0123456789"[d]
  }

  /** A natural number in decimal. */
  function NatToText(n: nat): string
  {
    if n < 10 then [DigitChar(n)] else NatToText(n / 10) + [DigitChar(n % 10)]
  }

  /** A 64-bit FID as a text stream writes it: decimal, with a minus sign when negative. */
  function IntToText(n: int): string
  {
    if n < 0 then "-" + NatToText(-n) else NatToText(n)
  }

  predicate IsDigit(c: char)
  {
    '0' <= c <= '9'
  }

  /** Reads a non-empty run of decimal digits. */
  function ParseNat(s: string): Option<nat>
  {
    if |s| == 0 || !IsDigit(s[|s| - 1]) then None
    else
      var d := (s[|s| - 1] - '0') as nat;
      if |s| == 1 then Some(d)
      else match ParseNat(s[..|s| - 1])
        case None => None
        case Some(m) => Some(10 * m + d)
  }

  /** Reads an optionally negative decimal integer. */
  function ParseInt(s: string): Option<int>
  {
    if |s| > 0 && s[0] == '-' then
      match ParseNat(s[1..])
      case None => None
      case Some(m) => Some(0 - m)
    else
      match ParseNat(s)
      case None => None
      case Some(m) => Some(m)
  }

  /** Decimal text is digits only, and reads back as the number written. */
  lemma {:induction false} NatToTextRoundTrip(n: nat)
    ensures forall c | c in NatToText(n) :: IsDigit(c)
    ensures ParseNat(NatToText(n)) == Some(n)
  {
    if n >= 10 {
      NatToTextRoundTrip(n / 10);
      var s := NatToText(n);
      assert s[..|s| - 1] == NatToText(n / 10);
    }
  }

  /** An FID's text has no comma, quote or line break, and reads back as the FID. */
  lemma {:induction false} IntToTextRoundTrip(n: int)
    ensures ',' !in IntToText(n) && '"' !in IntToText(n) && '\n' !in IntToText(n)
    ensures ParseInt(IntToText(n)) == Some(n)
  {
    var m: nat := if n < 0 then -n else n;
    var digits := NatToText(m);
    NatToTextRoundTrip(m);
    assert |digits| > 0;
    assert IsDigit(digits[0]);
    if n < 0 {
      assert IntToText(n) == "-" + digits;
      assert ("-" + digits)[1..] == digits;
    } else {
      assert IntToText(n) == digits;
    }
  }

  /** The legend's first line: two quoted column titles. */
  function LegendHeader(fieldName: string): string
  {
    "\"index\", \"" + fieldName + "\"\n"
  }

  /** The legend line of one feature: its FID, then its field value as quoted text. */
  function LegendLine(f: Feature): string
  {
    IntToText(f.fid) + ", \"" + f.valueAsString + "\"\n"
  }

  /** The whole legend: the header, then one line per feature, geometry or not, in layer order. */
  function LegendText(fieldName: string, features: seq<Feature>): string
  {
    if |features| == 0 then LegendHeader(fieldName)
    else LegendText(fieldName, features[..|features| - 1]) + LegendLine(features[|features| - 1])
  }

  /** The position of the first `c` in `s`. */
  function IndexOf(s: string, c: char): (r: Option<nat>)
    ensures r.None? <==> c !in s
    ensures r.Some? ==> r.value < |s| && s[r.value] == c && c !in s[..r.value]
  {
    if |s| == 0 then None
    else if s[0] == c then Some(0)
    else match IndexOf(s[1..], c)
      case None => None
      case Some(i) => assert s[1..][..i] == s[1..i + 1]; Some(i + 1)
  }

  /**
   * Reads a legend line back: the FID is the text up to the first comma,
   * the value what lies between the quote after ", " and the closing
   * quote before the line break.
   */
  function ParseLegendLine(line: string): Option<(int, string)>
  {
    var n := |line|;
    if n < 2 || line[n - 2] != '"' || line[n - 1] != '\n' then None
    else match IndexOf(line, ',')
      case None => None
      case Some(c) =>
        if c + 3 <= n - 2 && line[c + 1] == ' ' && line[c + 2] == '"' then
          match ParseInt(line[..c])
          case None => None
          case Some(fid) => Some((fid, line[c + 3..n - 2]))
        else None
  }

  /** Every legend line reads back as its feature's FID and field text, whatever that text holds. */
  lemma {:induction false} LegendLineRoundTrip(f: Feature)
    ensures ParseLegendLine(LegendLine(f)) == Some((f.fid, f.valueAsString))
  {
    IntToTextRoundTrip(f.fid);
    ParseLineParts(IntToText(f.fid), f.valueAsString, f.fid);
  }

  /** A line made of a comma-free number text, ", \"", a value and "\"\n" reads back as the number and the value. */
  lemma {:induction false} ParseLineParts(id: string, v: string, fid: int)
    requires ',' !in id && ParseInt(id) == Some(fid)
    ensures ParseLegendLine(id + ", \"" + v + "\"\n") == Some((fid, v))
  {
    var tail := ", \"" + v + "\"\n";
    var line := id + tail;
    assert line == id + ", \"" + v + "\"\n";
    var k := |id|;
    assert tail[1] == ' ' && tail[2] == '"' && tail[|tail| - 2] == '"' && tail[|tail| - 1] == '\n';
    assert tail[3..|tail| - 2] == v;
    assert line[k + 3..|line| - 2] == tail[3..|tail| - 2];
    assert line[..k] == id;
    IndexOfAfter(id, tail, ',');
    ParseLegendLineAt(line, k, fid, v);
  }

  /** The shape `ParseLegendLine` looks for, stated position by position. */
  lemma ParseLegendLineAt(line: string, k: nat, fid: int, v: string)
    requires |line| >= k + 5 && line[|line| - 2] == '"' && line[|line| - 1] == '\n'
    requires IndexOf(line, ',') == Some(k) && line[k + 1] == ' ' && line[k + 2] == '"'
    requires ParseInt(line[..k]) == Some(fid) && line[k + 3..|line| - 2] == v
    ensures ParseLegendLine(line) == Some((fid, v))
  {
  }

  /** The first `c` in `a + b`, when `a` has none and `b` starts with one, is where `b` starts. */
  lemma {:induction false} IndexOfAfter(a: string, b: string, c: char)
    requires c !in a && |b| > 0 && b[0] == c
    ensures IndexOf(a + b, c) == Some(|a|)
  {
    if |a| > 0 {
      assert (a + b)[1..] == a[1..] + b;
      IndexOfAfter(a[1..], b, c);
    }
  }

  /** How many times `c` occurs in `s`. */
  function CountChar(s: string, c: char): nat
  {
    if |s| == 0 then 0 else CountChar(s[..|s| - 1], c) + if s[|s| - 1] == c then 1 else 0
  }

  lemma {:induction false} CountCharAppend(a: string, b: string, c: char)
    ensures CountChar(a + b, c) == CountChar(a, c) + CountChar(b, c)
    decreases |b|
  {
    if |b| > 0 {
      assert (a + b)[..|a + b| - 1] == a + b[..|b| - 1];
      CountCharAppend(a, b[..|b| - 1], c);
    } else {
      assert a + b == a;
    }
  }

  lemma {:induction false} CountCharAbsent(s: string, c: char)
    requires c !in s
    ensures CountChar(s, c) == 0
  {
    if |s| > 0 {
      assert forall x | x in s[..|s| - 1] :: x in s;
      CountCharAbsent(s[..|s| - 1], c);
    }
  }

  /**
   * The legend has one line per feature plus the header, as long as neither
   * the field name nor any value contains a line break.
   */
  lemma {:induction false} LegendLineCount(fieldName: string, features: seq<Feature>)
    requires '\n' !in fieldName
    requires forall i :: 0 <= i < |features| ==> '\n' !in features[i].valueAsString
    ensures CountChar(LegendText(fieldName, features), '\n') == |features| + 1
  {
    if |features| == 0 {
      var h := LegendHeader(fieldName);
      assert h == "\"index\", \"" + fieldName + "\"" + "\n";
      CountCharAbsent("\"index\", \"" + fieldName + "\"", '\n');
      CountCharAppend("\"index\", \"" + fieldName + "\"", "\n", '\n');
    } else {
      var init, f := features[..|features| - 1], features[|features| - 1];
      LegendLineCount(fieldName, init);
      IntToTextRoundTrip(f.fid);
      var body := IntToText(f.fid) + ", \"" + f.valueAsString + "\"";
      assert LegendLine(f) == body + "\n";
      CountCharAbsent(body, '\n');
      CountCharAppend(body, "\n", '\n');
      CountCharAppend(LegendText(fieldName, init), LegendLine(f), '\n');
    }
  }

  /**
   * `Raster::OutputCSVFile`: when the legend file opens, writes the header
   * and then one line per feature of the layer; when it does not, writes
   * nothing.
   */
  method OutputCSVFile(layer: Layer, fieldName: string, opens: bool) returns (text: Option<string>)
    ensures text == if opens then Some(LegendText(fieldName, layer.features)) else None
  {
    if !opens {
      return None;
    }
    var stream := LegendHeader(fieldName);
    var features := layer.features;
    var k := 0;
    while k < |features|
      invariant 0 <= k <= |features|
      invariant stream == LegendText(fieldName, features[..k])
    {
      assert features[..k + 1][..k] == features[..k];
      stream := stream + LegendLine(features[k]);
      k := k + 1;
    }
    assert features[..k] == features;
    return Some(stream);
  }

  /**
   * The name of the legend file: the output's name up to its last '.',
   * with ".csv" in place of the extension (and added when there is none).
   */
  function LegendFileName(outputFileName: string): (r: string)
    requires '/' !in outputFileName
    ensures HasCsvExtension(r)
    ensures '.' !in outputFileName ==> r == outputFileName + ".csv"
  {
    FileExtensionIsLastDot(outputFileName);
    match FileExtension(outputFileName)
    case None => outputFileName + ".csv"
    case Some(ext) => outputFileName[..|outputFileName| - |ext|] + ".csv"
  }

  /**
   * With a '.' in the name, the legend's name is the name up to its last
   * '.', followed by ".csv".
   */
  lemma LegendFileNameStem(outputFileName: string, k: nat)
    requires '/' !in outputFileName
    requires k < |outputFileName| && outputFileName[k] == '.'
    requires forall m | k < m < |outputFileName| :: outputFileName[m] != '.'
    ensures LegendFileName(outputFileName) == outputFileName[..k] + ".csv"
  {
    FileExtensionAt(outputFileName, k);
  }

  predicate HasCsvExtension(s: string)
  {
    |s| >= 4 && s[|s| - 4..] == ".csv"
  }

  /*
   * The two overloads.
   */

  /**
   * `Raster::VectortoRaster` onto a given template: opens the source (a
   * missing source is INPUT_FILE_ERROR), takes the named layer and the
   * type of the burnt field, writes the legend for a text field, rejects
   * every type but text and integer as the switch is written (a real field
   * included), gives the template the layer's projection and builds the
   * burn lists.
   *
   * The source looks neither at the layer nor at feature 0 before using
   * them, so both must exist.
   */
  method VectorToRaster(input: Option<DataSource>, layerName: string, fieldName: string,
                        csvOpens: bool, meta: RasterMeta)
    returns (outcome: Outcome, legend: Option<string>, shapes: seq<Shape>, values: seq<real>)
    requires input.Some? ==>
      FindLayer(input.value.layers, layerName).Some? && FindLayer(input.value.layers, layerName).value.fieldType.Some?
    modifies meta
    ensures meta.extent.Value() == old(meta.extent.Value())
    ensures input.None? ==>
      outcome == Returned(InputFileError) && legend == None && shapes == [] && values == []
      && meta.Properties() == old(meta.Properties())
    ensures input.Some? ==>
      var layer := FindLayer(input.value.layers, layerName).value;
      var kind := layer.fieldType.value;
      && legend == (if kind == FieldString && csvOpens then Some(LegendText(fieldName, layer.features)) else None)
      && (FieldOutputTypeAsWritten(kind).Err? ==>
            outcome == Threw(FieldOutputTypeAsWritten(kind).error) && shapes == [] && values == []
            && meta.Properties() == old(meta.Properties()))
      && (FieldOutputTypeAsWritten(kind).Ok? ==>
            outcome == Returned(ProcessOk)
            && shapes == BurnShapes(layer.features) && values == BurnValues(kind, layer.features)
            && meta.Properties() == old(meta.Properties()).(4 := layer.srsWkt))
  {
    legend, shapes, values := None, [], [];
    if input.None? {
      return Returned(InputFileError), legend, shapes, values;
    }
    var layer := FindLayer(input.value.layers, layerName).value;
    var kind := layer.fieldType.value;
    if kind == FieldString {
      legend := OutputCSVFile(layer, fieldName, csvOpens);
    }
    var decision := FieldOutputTypeAsWritten(kind);
    if decision.Err? {
      return Threw(decision.error), legend, shapes, values;
    }
    meta.SetProjectionRef(layer.srsWkt);
    shapes, values := BuildBurnList(kind, layer.features);
    outcome := Returned(ProcessOk);
  }

  /** The template grid the cell-width overload derives from a layer's envelope. */
  function TemplateGeometry(e: Envelope, cellWidth: real): Geometry
    requires cellWidth != 0.0
  {
    Geometry(e.maxY, e.minX, Trunc((e.maxY - e.minY) / Abs(cellWidth)), Trunc((e.maxX - e.minX) / Abs(cellWidth)),
             -cellWidth, cellWidth)
  }

  /**
   * The template does not reach past the envelope, and falls short of it
   * by less than one cell in each direction.
   */
  lemma TemplateFitsEnvelope(e: Envelope, cellWidth: real)
    requires cellWidth != 0.0 && e.minX <= e.maxX && e.minY <= e.maxY
    ensures var g := TemplateGeometry(e, cellWidth);
      && g.rows >= 0 && g.cols >= 0
      && g.rows as real * Abs(cellWidth) <= e.maxY - e.minY < (g.rows + 1) as real * Abs(cellWidth)
      && g.cols as real * Abs(cellWidth) <= e.maxX - e.minX < (g.cols + 1) as real * Abs(cellWidth)
  {
    var w := Abs(cellWidth);
    SpanInCells(e.maxY - e.minY, w);
    SpanInCells(e.maxX - e.minX, w);
  }

  /** A non-negative span holds the truncated number of whole cells and not one more. */
  lemma SpanInCells(span: real, w: real)
    requires span >= 0.0 && w > 0.0
    ensures var n := Trunc(span / w);
      n >= 0 && n as real * w <= span < (n + 1) as real * w
  {
    var q := span / w;
    var n := Trunc(q);
    assert q * w == span by {
    }
    if q < 0.0 {
      MulLt(q, 0.0, w);
    }
    assert n as real <= q < (n + 1) as real;
    MulLe(n as real, q, w);
    MulLt(q, (n + 1) as real, w);
    assert q * w < (n + 1) as real * w;
    assert span < (n + 1) as real * w;
  }

  /**
   * The template the cell-width overload builds: the envelope's top-left
   * corner, whole cells of the given width, the lowest float as nodata, a
   * GTiff of Float32 and no projection yet.
   */
  method NewTemplate(e: Envelope, cellWidth: real) returns (template: RasterMeta)
    requires cellWidth != 0.0
    ensures fresh(template) && fresh(template.extent) && fresh(template.noData)
    ensures template.extent.Value() == TemplateGeometry(e, cellWidth)
    ensures template.Properties() == (FltLowest, true, Float32, "GTiff", "", "")
  {
    var nRows := Trunc((e.maxY - e.minY) / Abs(cellWidth));
    var nCols := Trunc((e.maxX - e.minX) / Abs(cellWidth));
    template := new RasterMeta(e.maxY, e.minX, nRows, nCols, -cellWidth, cellWidth, Some(FltLowest),
                               "GTiff", Float32, "", "");
  }

  /**
   * `Raster::VectortoRaster` by cell width: opens the source
   * (INPUT_FILE_ERROR), finds the layer (VECTOR_LAYER_NOT_FOUND), sizes a
   * north-up float32 GeoTIFF template on the layer's envelope with nodata
   * the lowest float, and burns onto it.
   */
  method VectorToRasterByCellWidth(input: Option<DataSource>, layerName: string, fieldName: string,
                                   csvOpens: bool, cellWidth: real)
    returns (outcome: Outcome, legend: Option<string>, shapes: seq<Shape>, values: seq<real>, template: RasterMeta?)
    requires cellWidth != 0.0
    requires input.Some? && FindLayer(input.value.layers, layerName).Some? ==>
      FindLayer(input.value.layers, layerName).value.fieldType.Some?
    ensures input.None? ==> outcome == Returned(InputFileError) && template == null
    ensures input.Some? && FindLayer(input.value.layers, layerName).None? ==>
      outcome == Returned(VectorLayerNotFound) && template == null
    ensures input.Some? && FindLayer(input.value.layers, layerName).Some? ==>
      var layer := FindLayer(input.value.layers, layerName).value;
      var kind := layer.fieldType.value;
      && template != null && fresh(template)
      && template.extent.Value() == TemplateGeometry(layer.extent, cellWidth)
      && template.HasNoDataValue() && template.GetNoDataValue() == FltLowest
      && template.GetGDALDriver() == "GTiff" && template.GetGDALDataType() == Float32
      && template.GetProjectionRef() == (if FieldOutputTypeAsWritten(kind).Ok? then layer.srsWkt else "")
      && legend == (if kind == FieldString && csvOpens then Some(LegendText(fieldName, layer.features)) else None)
      && outcome == (if FieldOutputTypeAsWritten(kind).Ok? then Returned(ProcessOk) else Threw(FieldOutputTypeAsWritten(kind).error))
      && shapes == (if FieldOutputTypeAsWritten(kind).Ok? then BurnShapes(layer.features) else [])
      && values == (if FieldOutputTypeAsWritten(kind).Ok? then BurnValues(kind, layer.features) else [])
  {
    legend, shapes, values, template := None, [], [], null;
    if input.None? {
      return Returned(InputFileError), legend, shapes, values, template;
    }
    var found := FindLayer(input.value.layers, layerName);
    if found.None? {
      return Returned(VectorLayerNotFound), legend, shapes, values, template;
    }
    template := NewTemplate(found.value.extent, cellWidth);
    outcome, legend, shapes, values := VectorToRaster(input, layerName, fieldName, csvOpens, template);
  }
}
