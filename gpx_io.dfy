/** Reading and writing track files in the GPX markup: `load_gpx_trk`, a
    single pass over the characters of the file driving two state machines
    (a tokenizer that recognises tags, and an interpreter that reacts to
    each completed tag), and `save_gpx_trk`, which writes a fixed header,
    one block per point and a fixed footer. */
module GpxIo {
  import opened Numeric
  import opened GeoMath
  import opened TimeCodec
  import opened PathAnalytics

  // ---------------------------------------------------------------------
  // The decoder state
  // ---------------------------------------------------------------------

  datatype StreamState = InBoring | InElementStart | InElementEnd

  datatype GpxState = Scanning | HaveOpeningTag | HaveClosingTag

  /** The text-to-number conversions the decoder calls: the `sscanf` of
      `<trkpt lat="%lf" lon="%lf"` (each coordinate is `None` when it was
      not converted), `atof`, and `str_to_time_utc`. */
  datatype Parsers = Parsers(
    scanLatLon: string -> (Option<real>, Option<real>),
    atof: string -> real,
    strToTimeUtc: string -> int)

  /** The variables of `load_gpx_trk` between two passes of its loop.
      `last` is the character read most recently. */
  datatype Decoder = Decoder(
    sstate: StreamState,
    buf: string,
    opening: string,
    closing: string,
    element: string,
    last: char,
    inTrkpt: bool,
    lat: real,
    lon: real,
    ele: real,
    time: int,
    nextSeq: int,
    path: seq<Point>)

  const Init := Decoder(InBoring, "", "", "", "", '\0', false, 0.0, 0.0, 0.0, 0, 0, [])

  predicate StartsWith(s: string, prefix: string) {
    |prefix| <= |s| && s[..|prefix|] == prefix
  }

  /** The tokenizer's reaction to character `c`: the new state, and whether
      an opening or a closing tag has just been completed. Outside tags the
      characters pile up in `buf`; a `<` followed by anything but `/`
      starts an opening tag; a `</` starts a closing tag and saves the text
      before it, the `<` dropped, as the element's content. */
  function Tokenize(st: Decoder, c: char): (Decoder, GpxState) {
    match st.sstate
    case InBoring =>
      var st1 :=
        if st.last == '<' then
          if c != '/' then st.(buf := [st.last], sstate := InElementStart)
          else st.(element := if |st.buf| > 0 then st.buf[..|st.buf| - 1] else [],
                   buf := [st.last], sstate := InElementEnd)
        else st;
      (st1.(buf := st1.buf + [c], last := c), Scanning)
    case InElementStart =>
      if c == '>' then (st.(sstate := InBoring, opening := st.buf + [c], buf := [], last := c), HaveOpeningTag)
      else (st.(buf := st.buf + [c], last := c), Scanning)
    case InElementEnd =>
      if c == '>' then (st.(sstate := InBoring, closing := st.buf + [c], buf := [], last := c), HaveClosingTag)
      else (st.(buf := st.buf + [c], last := c), Scanning)
  }

  /** An opening tag starting `<trkp` opens a point and scans its
      coordinates; a coordinate that does not convert keeps its old value. */
  function OnOpeningTag(p: Parsers, st: Decoder): Decoder {
    if StartsWith(st.opening, "<trkp") then
      var scanned := p.scanLatLon(st.opening);
      st.(inTrkpt := true, lat := scanned.0.GetOr(st.lat), lon := scanned.1.GetOr(st.lon))
    else st
  }

  /** Inside a point, `</ti…` parses the element as the time and `</el…`
      as the elevation; `</trkp…` closes the point and appends it with the
      next sequence number. */
  function OnClosingTag(p: Parsers, st: Decoder): Decoder {
    var st1 :=
      if st.inTrkpt && StartsWith(st.closing, "</ti") then st.(time := p.strToTimeUtc(st.element))
      else if st.inTrkpt && StartsWith(st.closing, "</el") then st.(ele := p.atof(st.element))
      else st;
    if StartsWith(st1.closing, "</trkp") then
      st1.(inTrkpt := false,
           path := st1.path + [Point(Location(st1.lat, st1.lon, st1.ele), st1.time, st1.nextSeq)],
           nextSeq := st1.nextSeq + 1)
    else st1
  }

  /** One pass of the loop. */
  function Step(p: Parsers, st: Decoder, c: char): Decoder {
    var (st1, g) := Tokenize(st, c);
    match g
    case Scanning => st1
    case HaveOpeningTag => OnOpeningTag(p, st1)
    case HaveClosingTag => OnClosingTag(p, st1)
  }

  /** The passes over `s`, first character first. */
  function RunFrom(p: Parsers, st: Decoder, s: string): Decoder
    decreases |s|
  {
    if s == [] then st else RunFrom(p, Step(p, st, s[0]), s[1..])
  }

  /** The characters the loop handles: those of the file, then the last one
      again (`'\0'` for an empty file), since the pass that meets the end of
      the file still runs, with `c` left as it was. */
  function StreamOf(text: string): string {
    text + [if text == [] then '\0' else text[|text| - 1]]
  }

  /** The points `load_gpx_trk` returns for a file holding `text`. */
  function DecodeGpx(p: Parsers, text: string): seq<Point> {
    RunFrom(p, Init, StreamOf(text)).path
  }

  lemma {:induction false} RunFromAppend(p: Parsers, st: Decoder, a: string, b: string)
    ensures RunFrom(p, st, a + b) == RunFrom(p, RunFrom(p, st, a), b)
    decreases |a|
  {
    if a != [] {
      assert (a + b)[0] == a[0] && (a + b)[1..] == a[1..] + b;
      RunFromAppend(p, Step(p, st, a[0]), a[1..], b);
    } else {
      assert a + b == b;
    }
  }

  /** The points decoded so far are numbered 0, 1, 2, … and `nextSeq` is
      the next number. */
  predicate Numbered(st: Decoder) {
    st.nextSeq == |st.path| && forall k | 0 <= k < |st.path| :: st.path[k].sequence == k
  }

  /** One pass appends at most the point numbered `nextSeq`. */
  lemma StepExtends(p: Parsers, st: Decoder, c: char)
    requires Numbered(st)
    ensures Numbered(Step(p, st, c)) && st.path <= Step(p, st, c).path
  {
    var (st1, g) := Tokenize(st, c);
    assert st1.path == st.path && st1.nextSeq == st.nextSeq;
    if g == HaveClosingTag {
      var st2 := OnClosingTag(p, st1);
      if st2.path != st1.path {
        assert st2.path[..|st1.path|] == st1.path;
      }
    }
  }

  /** Decoding never removes or changes a point once appended, and keeps
      the numbering. */
  lemma {:induction false} RunFromExtends(p: Parsers, st: Decoder, s: string)
    requires Numbered(st)
    ensures Numbered(RunFrom(p, st, s))
    ensures st.path <= RunFrom(p, st, s).path
    decreases |s|
  {
    if s != [] {
      StepExtends(p, st, s[0]);
      RunFromExtends(p, Step(p, st, s[0]), s[1..]);
    }
  }

  /** `load_gpx_trk`: a file that cannot be opened (`None`) gives an empty
      path; otherwise the loop runs over its characters. Whatever the text,
      the points come out numbered 0 to n - 1. */
  method LoadGpxTrk(p: Parsers, file: Option<string>) returns (gpxPath: seq<Point>)
    ensures file.None? ==> gpxPath == []
    ensures file.Some? ==> gpxPath == DecodeGpx(p, file.value)
    ensures forall k | 0 <= k < |gpxPath| :: gpxPath[k].sequence == k
  {
    if file.None? {
      return [];
    }
    var text := file.value;
    var sstate, gstate := InBoring, Scanning;
    var buf, opening, closing, element := "", "", "", "";
    gpxPath := [];
    var lastC, c := '\0', '\0';
    var inTrkpt := false;
    var lat, lon, ele := 0.0, 0.0, 0.0;
    var seqNo, time := 0, 0;
    var pos, eof := 0, false;
    while !eof
      invariant 0 <= pos <= |text|
      invariant gstate == Scanning
      invariant !eof ==> c == if pos == 0 then '\0' else text[pos - 1]
      invariant var st := Decoder(sstate, buf, opening, closing, element, c, inTrkpt, lat, lon, ele, time, seqNo, gpxPath);
        st == RunFrom(p, Init, if eof then StreamOf(text) else text[..pos])
      decreases |text| - pos, if eof then 0 else 1
    {
      ghost var before := Decoder(sstate, buf, opening, closing, element, c, inTrkpt, lat, lon, ele, time, seqNo, gpxPath);
      ghost var read := text[..pos];
      lastC := c;
      if pos < |text| {
        c := text[pos];
        pos := pos + 1;
      } else {
        eof := true;
      }

      match sstate {
        case InBoring =>
          if lastC == '<' {
            if c != '/' {
              buf := [lastC];
              sstate := InElementStart;
            } else {
              if |buf| > 0 {
                element := buf[..|buf| - 1];
              } else {
                element := [];
              }
              buf := [lastC];
              sstate := InElementEnd;
            }
          }
          buf := buf + [c];
        case InElementStart =>
          buf := buf + [c];
          if c == '>' {
            sstate := InBoring;
            opening := buf;
            buf := [];
            gstate := HaveOpeningTag;
          }
        case InElementEnd =>
          buf := buf + [c];
          if c == '>' {
            sstate := InBoring;
            gstate := HaveClosingTag;
            closing := buf;
            buf := [];
          }
      }

      match gstate {
        case Scanning =>
        case HaveOpeningTag =>
          if StartsWith(opening, "<trkp") {
            inTrkpt := true;
            var scanned := p.scanLatLon(opening);
            if scanned.0.Some? {
              lat := scanned.0.value;
            }
            if scanned.1.Some? {
              lon := scanned.1.value;
            }
          }
        case HaveClosingTag =>
          if inTrkpt {
            if StartsWith(closing, "</ti") {
              time := p.strToTimeUtc(element);
            } else if StartsWith(closing, "</el") {
              ele := p.atof(element);
            }
          }
          if StartsWith(closing, "</trkp") {
            inTrkpt := false;
            gpxPath := gpxPath + [Point(Location(lat, lon, ele), time, seqNo)];
            seqNo := seqNo + 1;
          }
      }

      gstate := Scanning;

      assert Decoder(sstate, buf, opening, closing, element, c, inTrkpt, lat, lon, ele, time, seqNo, gpxPath)
          == Step(p, before, c);
      if eof {
        assert read == text;
        RunFromAppend(p, Init, text, [c]);
      } else {
        assert text[..pos] == read + [c];
        RunFromAppend(p, Init, read, [c]);
      }
    }
    RunFromExtends(p, Init, StreamOf(text));
  }

  // ---------------------------------------------------------------------
  // save_gpx_trk
  // ---------------------------------------------------------------------

  /** The number-to-text conversions the writer calls: `operator<<` on a
      `double` at precision 10, and the calendar part of `time_to_str_utc`
      (`gmtime` and `put_time` with `%FT%T`) applied to whole seconds. */
  datatype Formats = Formats(number: real -> string, civil: int -> string)

  /** A stretch of the fixed header or footer: text between tags, or one
      whole tag from its `<` to its `>`. */
  datatype Piece = Text(text: string) | Tag(text: string)

  function Render(pieces: seq<Piece>): string {
    if pieces == [] then "" else Render(pieces[..|pieces| - 1]) + pieces[|pieces| - 1].text
  }

  /** A line end, then `indent` spaces. */
  function NewLine(indent: nat): string {
    "\n" + seq(indent, _ => ' ')
  }

  // The longer literals below are written as short pieces joined with `+`
  // (the same text), so that proofs about them can take them apart.
  const XmlDeclaration: string :=
    "<?xml version=\"1.0\"" + " encoding=\"UTF-8\"" + " standalone=\"yes\"?" + ">"

  /** ` name="value"` inside a tag. */
  function Attribute(name: string, value: string): string {
    " " + name + "=\"" + value + "\""
  }

  const GpxOpenTag: string :=
    "<gpx"
    + Attribute("version", "1.1")
    + Attribute("xmlns", "http://www.topografix.com/GPX/1/1")
    + Attribute("xmlns:xsi", "http://www.w3.org/2001/XMLSchema-instance")
    + Attribute("xsi:schemaLocation", "http://www.topografix.com/GPX/1/1" + " " + "http://www.topografix.com/GPX/1/1/gpx.xsd")
    + Attribute("xmlns:oa", "http://www.outdooractive.com" + "/GPX/Extensions/1")
    + ">"

  /** The header of `save_gpx_trk`, line by line with its indentation: the
      XML declaration, `<gpx …>`, an empty `<metadata>`, `<trk>` and
      `<trkseg>`, the last line indented but empty. */
  const HeaderPieces: seq<Piece> := [
    Tag(XmlDeclaration), Text(NewLine(16)),
    Tag(GpxOpenTag), Text(NewLine(18)),
    Tag("<metadata>"), Text(NewLine(18)),
    Tag("</metadata>"), Text(NewLine(18)),
    Tag("<trk>"), Text(NewLine(20)),
    Tag("<trkseg>"), Text(NewLine(16))]

  /** The footer: the three closing tags, the last two indented. */
  const FooterPieces: seq<Piece> := [
    Tag("</trkseg>"), Text(NewLine(28)),
    Tag("</trk>"), Text(NewLine(28)),
    Tag("</gpx>")]

  const Header: string := Render(HeaderPieces)

  const Footer: string := Render(FooterPieces)

  /** The opening tag of a point, with its coordinates as attributes. */
  function TrkptTag(fmt: Formats, lat: real, lon: real): string {
    "<trkpt lat=\"" + fmt.number(lat) + "\"" + " lon=\"" + fmt.number(lon) + "\">"
  }

  /** The three lines of a point block, each ended by `std::endl`. */
  function TrkptLine(fmt: Formats, lat: real, lon: real): string {
    TrkptTag(fmt, lat, lon) + "\n"
  }

  function EleLine(fmt: Formats, ele: real): string {
    "<ele>" + fmt.number(ele) + "</ele>" + "\n"
  }

  function TimeLine(time: string): string {
    "<time>" + time + "</time>" + "\n"
  }

  /** What one pass of the loop of `save_gpx_trk` writes for point `pt`:
      the three lines, then `</trkpt>` and a line end. */
  function PointBlock(fmt: Formats, pt: Point): string {
    TrkptLine(fmt, pt.loc.lat, pt.loc.lon)
      + EleLine(fmt, pt.loc.ele)
      + TimeLine(TimeToStrUtc(fmt.civil, pt.timestamp))
      + "</trkpt>"
      + "\n"
  }

  /** The text after the header and the points `lo` to `hi - 1`. */
  function Written(fmt: Formats, s: seq<Point>, lo: int, hi: int): string
    requires 0 <= lo <= hi <= |s|
    decreases hi - lo
  {
    if lo == hi then Header else Written(fmt, s, lo, hi - 1) + PointBlock(fmt, s[hi - 1])
  }

  /** The whole file written for the points `lo` to `hi - 1`. */
  function EncodeGpx(fmt: Formats, s: seq<Point>, lo: int, hi: int): string
    requires 0 <= lo <= hi <= |s|
  {
    Written(fmt, s, lo, hi) + Footer
  }

  /** One pass of the loop of `save_gpx_trk`: the five writes for point
      `pt`, behind the text `w` already written. */
  method WritePoint(fmt: Formats, w: string, pt: Point) returns (written: string)
    ensures written == w + PointBlock(fmt, pt)
  {
    var lat := pt.loc.lat;
    var lon := pt.loc.lon;
    var time := TimeToStrUtc(fmt.civil, pt.timestamp);
    written := w + TrkptLine(fmt, lat, lon);
    written := written + EleLine(fmt, pt.loc.ele);
    written := written + TimeLine(time);
    written := written + "</trkpt>";
    written := written + "\n";
  }

  /** The loop of `save_gpx_trk`: the header, then one block per point. */
  method WriteBlocks(fmt: Formats, s: seq<Point>, lo: int, hi: int) returns (text: string)
    requires 0 <= lo <= hi <= |s|
    ensures text == Written(fmt, s, lo, hi)
  {
    text := Header;
    for i := lo to hi
      invariant text == Written(fmt, s, lo, i)
    {
      text := WritePoint(fmt, text, s[i]);
    }
  }

  /** `save_gpx_trk`: nothing is written for an empty range or a file that
      cannot be opened (`writable` false); otherwise the text written is
      the header, one block per point of the range, and the footer. */
  method SaveGpxTrk(fmt: Formats, s: seq<Point>, lo: int, hi: int, writable: bool) returns (ok: bool, written: string)
    requires 0 <= lo <= hi <= |s|
    ensures ok <==> lo < hi && writable
    ensures written == if ok then EncodeGpx(fmt, s, lo, hi) else ""
  {
    if lo == hi || !writable {
      ok, written := false, "";
    } else {
      var text := WriteBlocks(fmt, s, lo, hi);
      ok, written := true, text + Footer;
    }
  }
}
