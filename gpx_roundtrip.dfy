/** Reading back what the writer writes: the decoder of `load_gpx_trk`,
    run over the text `save_gpx_trk` produces, finds one point per point
    written, numbered from 0, holding what the parsers make of the written
    numbers and times. The proof follows the text piece by piece: plain
    text between tags, the start of a tag, text inside a tag, and the
    piece that ends a tag. */
module GpxRoundTrip {
  import opened Numeric
  import opened GeoMath
  import opened TimeCodec
  import opened PathAnalytics
  import opened GpxIo

  // ---------------------------------------------------------------------
  // The decoder on pieces of text
  // ---------------------------------------------------------------------

  /** Between tags, the last character read not being a `<`. */
  predicate Ready(st: Decoder) {
    st.sstate == InBoring && st.last != '<'
  }

  /** Between tags and outside any point. */
  predicate Idle(st: Decoder) {
    Ready(st) && !st.inTrkpt
  }

  function LastOr(t: string, d: char): char {
    if t == [] then d else t[|t| - 1]
  }

  /** A whole tag: from `<` to the first `>`, which ends it. */
  predicate TagText(t: string) {
    |t| >= 3 && t[0] == '<' && t[|t| - 1] == '>' && '>' !in t[..|t| - 1]
  }

  lemma NotStartsWithAt(s: string, prefix: string, i: int)
    requires 0 <= i < |prefix| && (i < |s| ==> s[i] != prefix[i])
    ensures !StartsWith(s, prefix)
  {
  }

  lemma StartsWithAppend(a: string, b: string, prefix: string)
    requires StartsWith(a, prefix)
    ensures StartsWith(a + b, prefix)
  {
    assert (a + b)[..|prefix|] == a[..|prefix|];
  }

  /** Text without `<` is only collected. */
  lemma {:induction false} TextRun(p: Parsers, st: Decoder, t: string)
    requires Ready(st) && '<' !in t
    ensures RunFrom(p, st, t) == st.(buf := st.buf + t, last := LastOr(t, st.last))
    decreases |t|
  {
    if t == [] {
      assert st.buf + t == st.buf;
    } else {
      var next := Step(p, st, t[0]);
      assert next == st.(buf := st.buf + [t[0]], last := t[0]);
      TextRun(p, next, t[1..]);
      assert st.buf + [t[0]] + t[1..] == st.buf + t;
    }
  }

  /** Inside a tag, text without `>` is only collected. */
  lemma {:induction false} InTagRun(p: Parsers, st: Decoder, t: string)
    requires st.sstate != InBoring && '>' !in t
    ensures RunFrom(p, st, t) == st.(buf := st.buf + t, last := LastOr(t, st.last))
    decreases |t|
  {
    if t == [] {
      assert st.buf + t == st.buf;
    } else {
      var next := Step(p, st, t[0]);
      assert next == st.(buf := st.buf + [t[0]], last := t[0]);
      InTagRun(p, next, t[1..]);
      assert st.buf + [t[0]] + t[1..] == st.buf + t;
    }
  }

  /** The start of an opening tag: the text before it is dropped. */
  lemma TagStart(p: Parsers, st: Decoder, t: string)
    requires Ready(st) && |t| >= 2 && t[0] == '<' && t[1] != '/' && '>' !in t
    ensures RunFrom(p, st, t) == st.(sstate := InElementStart, buf := t, last := t[|t| - 1])
  {
    var s1 := Step(p, st, t[0]);
    assert s1 == st.(buf := st.buf + ['<'], last := '<');
    var s2 := Step(p, s1, t[1]);
    assert s2 == st.(sstate := InElementStart, buf := ['<', t[1]], last := t[1]);
    assert t[1..][0] == t[1] && t[1..][1..] == t[2..];
    assert RunFrom(p, st, t) == RunFrom(p, s2, t[2..]);
    InTagRun(p, s2, t[2..]);
    assert ['<', t[1]] + t[2..] == t;
  }

  /** The start of a closing tag: the text before it, without the `<`,
      becomes the element's content. */
  lemma CloseStart(p: Parsers, st: Decoder, t: string)
    requires Ready(st) && |t| >= 2 && t[0] == '<' && t[1] == '/' && '>' !in t
    ensures RunFrom(p, st, t) == st.(sstate := InElementEnd, element := st.buf, buf := t, last := t[|t| - 1])
  {
    var s1 := Step(p, st, t[0]);
    assert s1 == st.(buf := st.buf + ['<'], last := '<');
    assert (st.buf + ['<'])[..|st.buf|] == st.buf;
    var s2 := Step(p, s1, t[1]);
    assert s2 == st.(sstate := InElementEnd, element := st.buf, buf := ['<', '/'], last := '/');
    assert t[1..][0] == t[1] && t[1..][1..] == t[2..];
    assert RunFrom(p, st, t) == RunFrom(p, s2, t[2..]);
    InTagRun(p, s2, t[2..]);
    assert ['<', '/'] + t[2..] == t;
  }

  /** What the decoder does once a tag `tag` is complete. */
  function Complete(p: Parsers, st: Decoder, tag: string): Decoder {
    if st.sstate == InElementStart then
      OnOpeningTag(p, st.(sstate := InBoring, opening := tag, buf := [], last := '>'))
    else
      OnClosingTag(p, st.(sstate := InBoring, closing := tag, buf := [], last := '>'))
  }

  /** The piece that ends a tag, its only `>` being its last character. */
  lemma TagEnd(p: Parsers, st: Decoder, t: string)
    requires st.sstate != InBoring && t != [] && t[|t| - 1] == '>' && '>' !in t[..|t| - 1]
    ensures RunFrom(p, st, t) == Complete(p, st, st.buf + t)
  {
    var n := |t|;
    assert t == t[..n - 1] + [t[n - 1]];
    RunFromAppend(p, st, t[..n - 1], [t[n - 1]]);
    InTagRun(p, st, t[..n - 1]);
    var mid := st.(buf := st.buf + t[..n - 1], last := LastOr(t[..n - 1], st.last));
    assert [t[n - 1]][1..] == [];
    assert RunFrom(p, mid, [t[n - 1]]) == Step(p, mid, '>');
    assert st.buf + t[..n - 1] + ['>'] == st.buf + t;
  }

  lemma SplitTag(t: string)
    requires TagText(t)
    ensures var h := t[..|t| - 1];
      && t == h + t[|t| - 1..] && |h| >= 2 && h[0] == '<' && '>' !in h
      && t[|t| - 1..] != [] && t[|t| - 1..][|t[|t| - 1..]| - 1] == '>' && '>' !in t[|t| - 1..][..0]
  {
  }

  /** A whole opening tag read between tags. */
  lemma OpenTagRun(p: Parsers, st: Decoder, t: string)
    requires Ready(st) && TagText(t) && t[1] != '/'
    ensures RunFrom(p, st, t) == OnOpeningTag(p, st.(sstate := InBoring, opening := t, buf := [], last := '>'))
  {
    var h, e := t[..|t| - 1], t[|t| - 1..];
    SplitTag(t);
    RunFromAppend(p, st, h, e);
    TagStart(p, st, h);
    var mid := st.(sstate := InElementStart, buf := h, last := h[|h| - 1]);
    TagEnd(p, mid, e);
  }

  /** A whole closing tag read between tags. */
  lemma CloseTagRun(p: Parsers, st: Decoder, t: string)
    requires Ready(st) && TagText(t) && t[1] == '/'
    ensures RunFrom(p, st, t) == OnClosingTag(p, st.(sstate := InBoring, element := st.buf, closing := t, buf := [], last := '>'))
  {
    var h, e := t[..|t| - 1], t[|t| - 1..];
    SplitTag(t);
    RunFromAppend(p, st, h, e);
    CloseStart(p, st, h);
    var mid := st.(sstate := InElementEnd, element := st.buf, buf := h, last := h[|h| - 1]);
    TagEnd(p, mid, e);
  }

  // ---------------------------------------------------------------------
  // The header and the footer
  // ---------------------------------------------------------------------

  /** Text without `<`, or a tag that neither opens nor closes a point. */
  predicate QuietPiece(x: Piece) {
    match x
    case Text(t) => '<' !in t
    case Tag(t) => TagText(t) && !StartsWith(t, "<trkp") && !StartsWith(t, "</trkp")
  }

  /** Nothing the decoder reports has changed. */
  predicate Keeps(st: Decoder, r: Decoder) {
    && r.lat == st.lat && r.lon == st.lon && r.ele == st.ele && r.time == st.time
    && r.nextSeq == st.nextSeq && r.path == st.path
  }

  lemma QuietPieceRun(p: Parsers, st: Decoder, x: Piece)
    requires Idle(st) && QuietPiece(x)
    ensures Idle(RunFrom(p, st, x.text)) && Keeps(st, RunFrom(p, st, x.text))
  {
    match x
    case Text(t) =>
      TextRun(p, st, t);
    case Tag(t) =>
      if t[1] == '/' {
        CloseTagRun(p, st, t);
      } else {
        OpenTagRun(p, st, t);
      }
  }

  /** Quiet pieces, one after another, leave the decoder between tags,
      outside any point, with nothing it reports changed. */
  lemma {:induction false} QuietRun(p: Parsers, st: Decoder, pieces: seq<Piece>)
    requires Idle(st)
    requires forall i | 0 <= i < |pieces| :: QuietPiece(pieces[i])
    ensures Idle(RunFrom(p, st, Render(pieces))) && Keeps(st, RunFrom(p, st, Render(pieces)))
    decreases |pieces|
  {
    if pieces != [] {
      var init, x := pieces[..|pieces| - 1], pieces[|pieces| - 1];
      RunFromAppend(p, st, Render(init), x.text);
      QuietRun(p, st, init);
      QuietPieceRun(p, RunFrom(p, st, Render(init)), x);
    }
  }

  /** A tag is quiet once an index is shown at which it leaves each of
      `<trkp` and `</trkp`. */
  lemma TagIsQuiet(t: string, i: int, j: int)
    requires TagText(t)
    requires 0 <= i < 5 && (i < |t| ==> t[i] != "<trkp"[i])
    requires 0 <= j < 6 && (j < |t| ==> t[j] != "</trkp"[j])
    ensures QuietPiece(Tag(t))
  {
    NotStartsWithAt(t, "<trkp", i);
    NotStartsWithAt(t, "</trkp", j);
  }

  lemma XmlDeclarationIsQuiet()
    ensures QuietPiece(Tag(XmlDeclaration))
  {
    var t := XmlDeclaration;
    var h := "<?xml version=\"1.0\"" + " encoding=\"UTF-8\"" + " standalone=\"yes\"?";
    assert t == h + ">";
    assert t[..|t| - 1] == h;
    TagIsQuiet(t, 1, 1);
  }

  lemma AttributeIsPlain(name: string, value: string)
    requires '>' !in name && '>' !in value
    ensures '>' !in Attribute(name, value)
  {
  }

  lemma NamespaceIsPlain()
    ensures '>' !in "http://www.topografix.com/GPX/1/1"
  {
  }

  lemma SchemaInstanceIsPlain()
    ensures '>' !in "http://www.w3.org/2001/XMLSchema-instance"
  {
  }

  lemma SchemaFileIsPlain()
    ensures '>' !in "http://www.topografix.com/GPX/1/1/gpx.xsd"
  {
  }

  lemma ExtensionsUrlIsPlain()
    ensures '>' !in "http://www.outdooractive.com" + "/GPX/Extensions/1"
  {
  }

  lemma GpxAttributesArePlain()
    ensures '>' !in Attribute("version", "1.1")
    ensures '>' !in Attribute("xmlns", "http://www.topografix.com/GPX/1/1")
    ensures '>' !in Attribute("xmlns:xsi", "http://www.w3.org/2001/XMLSchema-instance")
    ensures '>' !in Attribute("xsi:schemaLocation", "http://www.topografix.com/GPX/1/1" + " " + "http://www.topografix.com/GPX/1/1/gpx.xsd")
    ensures '>' !in Attribute("xmlns:oa", "http://www.outdooractive.com" + "/GPX/Extensions/1")
  {
    NamespaceIsPlain();
    SchemaInstanceIsPlain();
    SchemaFileIsPlain();
    ExtensionsUrlIsPlain();
    AttributeIsPlain("version", "1.1");
    AttributeIsPlain("xmlns", "http://www.topografix.com/GPX/1/1");
    AttributeIsPlain("xmlns:xsi", "http://www.w3.org/2001/XMLSchema-instance");
    AttributeIsPlain("xsi:schemaLocation", "http://www.topografix.com/GPX/1/1" + " " + "http://www.topografix.com/GPX/1/1/gpx.xsd");
    AttributeIsPlain("xmlns:oa", "http://www.outdooractive.com" + "/GPX/Extensions/1");
  }

  lemma GpxOpenTagIsQuiet()
    ensures QuietPiece(Tag(GpxOpenTag))
  {
    GpxAttributesArePlain();
    var t := GpxOpenTag;
    var h := "<gpx"
      + Attribute("version", "1.1")
      + Attribute("xmlns", "http://www.topografix.com/GPX/1/1")
      + Attribute("xmlns:xsi", "http://www.w3.org/2001/XMLSchema-instance")
      + Attribute("xsi:schemaLocation", "http://www.topografix.com/GPX/1/1" + " " + "http://www.topografix.com/GPX/1/1/gpx.xsd")
      + Attribute("xmlns:oa", "http://www.outdooractive.com" + "/GPX/Extensions/1");
    assert t == h + ">";
    assert t[..|t| - 1] == h;
    TagIsQuiet(t, 1, 1);
  }

  lemma NewLineIsQuiet(indent: nat)
    ensures QuietPiece(Text(NewLine(indent)))
  {
  }

  /** Quiet pieces in a list of five or twelve: the shapes of the footer
      and of the header. */
  lemma FiveQuiet(x0: Piece, x1: Piece, x2: Piece, x3: Piece, x4: Piece)
    requires QuietPiece(x0) && QuietPiece(x1) && QuietPiece(x2) && QuietPiece(x3) && QuietPiece(x4)
    ensures forall i | 0 <= i < 5 :: QuietPiece([x0, x1, x2, x3, x4][i])
  {
  }

  lemma TwelveQuiet(x0: Piece, x1: Piece, x2: Piece, x3: Piece, x4: Piece, x5: Piece,
                    x6: Piece, x7: Piece, x8: Piece, x9: Piece, x10: Piece, x11: Piece)
    requires QuietPiece(x0) && QuietPiece(x1) && QuietPiece(x2) && QuietPiece(x3)
    requires QuietPiece(x4) && QuietPiece(x5) && QuietPiece(x6) && QuietPiece(x7)
    requires QuietPiece(x8) && QuietPiece(x9) && QuietPiece(x10) && QuietPiece(x11)
    ensures forall i | 0 <= i < 12 :: QuietPiece([x0, x1, x2, x3, x4, x5, x6, x7, x8, x9, x10, x11][i])
  {
  }

  lemma HeaderIsQuiet()
    ensures forall i | 0 <= i < |HeaderPieces| :: QuietPiece(HeaderPieces[i])
  {
    XmlDeclarationIsQuiet();
    GpxOpenTagIsQuiet();
    TagIsQuiet("<metadata>", 1, 1);
    TagIsQuiet("</metadata>", 1, 2);
    TagIsQuiet("<trk>", 4, 1);
    TagIsQuiet("<trkseg>", 4, 1);
    NewLineIsQuiet(16);
    NewLineIsQuiet(18);
    NewLineIsQuiet(20);
    TwelveQuiet(
      Tag(XmlDeclaration), Text(NewLine(16)),
      Tag(GpxOpenTag), Text(NewLine(18)),
      Tag("<metadata>"), Text(NewLine(18)),
      Tag("</metadata>"), Text(NewLine(18)),
      Tag("<trk>"), Text(NewLine(20)),
      Tag("<trkseg>"), Text(NewLine(16)));
  }

  lemma FooterIsQuiet()
    ensures forall i | 0 <= i < |FooterPieces| :: QuietPiece(FooterPieces[i])
  {
    TagIsQuiet("</trkseg>", 1, 5);
    TagIsQuiet("</trk>", 1, 5);
    TagIsQuiet("</gpx>", 1, 2);
    NewLineIsQuiet(28);
    FiveQuiet(
      Tag("</trkseg>"), Text(NewLine(28)),
      Tag("</trk>"), Text(NewLine(28)),
      Tag("</gpx>"));
  }

  // ---------------------------------------------------------------------
  // A point block
  // ---------------------------------------------------------------------

  /** Everything of the `<trkpt …>` tag but its final `">`. */
  function TrkptTagHead(fmt: Formats, lat: real, lon: real): string {
    "<trkpt lat=\"" + fmt.number(lat) + "\"" + " lon=\"" + fmt.number(lon)
  }

  /** Text without `>` read inside an opening tag extends the tag. */
  lemma InOpeningTagAppend(p: Parsers, st: Decoder, x: string, y: string)
    requires var r := RunFrom(p, st, x);
      r.sstate == InElementStart && r.buf == x && r.inTrkpt == st.inTrkpt && Keeps(st, r)
    requires '>' !in y
    ensures var r := RunFrom(p, st, x + y);
      r.sstate == InElementStart && r.buf == x + y && r.inTrkpt == st.inTrkpt && Keeps(st, r)
  {
    RunFromAppend(p, st, x, y);
    InTagRun(p, RunFrom(p, st, x), y);
  }

  /** The start `x` of an opening tag, then more of the tag `y`. */
  lemma OpenTagHeadRun(p: Parsers, st: Decoder, x: string, y: string)
    requires Ready(st) && |x| >= 2 && x[0] == '<' && x[1] != '/' && '>' !in x && '>' !in y
    ensures var r := RunFrom(p, st, x + y);
      && r.sstate == InElementStart && r.buf == x + y && r.inTrkpt == st.inTrkpt && Keeps(st, r)
  {
    TagStart(p, st, x);
    RunFromAppend(p, st, x, y);
    InTagRun(p, RunFrom(p, st, x), y);
  }

  lemma TrkptTagHeadRun(p: Parsers, fmt: Formats, st: Decoder, lat: real, lon: real)
    requires Idle(st) && '>' !in fmt.number(lat) && '>' !in fmt.number(lon)
    ensures var r := RunFrom(p, st, TrkptTagHead(fmt, lat, lon));
      && r.sstate == InElementStart && r.buf == TrkptTagHead(fmt, lat, lon)
      && r.inTrkpt == st.inTrkpt && Keeps(st, r)
  {
    var x := "<trkpt lat=\"";
    var y := fmt.number(lat) + "\"" + " lon=\"" + fmt.number(lon);
    assert TrkptTagHead(fmt, lat, lon) == x + y;
    OpenTagHeadRun(p, st, x, y);
  }

  /** The `<trkpt …>` line opens a point and scans its coordinates. */
  lemma TrkptLineRun(p: Parsers, fmt: Formats, st: Decoder, lat: real, lon: real)
    requires Idle(st) && '>' !in fmt.number(lat) && '>' !in fmt.number(lon)
    ensures var r := RunFrom(p, st, TrkptLine(fmt, lat, lon));
      var scanned := p.scanLatLon(TrkptTag(fmt, lat, lon));
      && Ready(r) && r.inTrkpt
      && r.lat == scanned.0.GetOr(st.lat) && r.lon == scanned.1.GetOr(st.lon)
      && r.ele == st.ele && r.time == st.time && r.nextSeq == st.nextSeq && r.path == st.path
  {
    var head := TrkptTagHead(fmt, lat, lon);
    var tag := TrkptTag(fmt, lat, lon);
    assert tag == head + "\">";
    TrkptTagHeadRun(p, fmt, st, lat, lon);
    TagEndAfter(p, st, head, "\">");
    StartsWithAppend("<trkpt lat=\"", fmt.number(lat) + "\"" + " lon=\"" + fmt.number(lon) + "\">", "<trkp");
    assert "<trkpt lat=\"" + (fmt.number(lat) + "\"" + " lon=\"" + fmt.number(lon) + "\">") == tag;
    TextAfter(p, st, tag, "\n");
  }

  /** The piece that ends a tag, after `x`. */
  lemma TagEndAfter(p: Parsers, st: Decoder, x: string, t: string)
    requires RunFrom(p, st, x).sstate != InBoring && t != [] && t[|t| - 1] == '>' && '>' !in t[..|t| - 1]
    ensures RunFrom(p, st, x + t) == Complete(p, RunFrom(p, st, x), RunFrom(p, st, x).buf + t)
  {
    RunFromAppend(p, st, x, t);
    TagEnd(p, RunFrom(p, st, x), t);
  }

  /** Text without `<` read between tags, after `x`. */
  lemma TextAfter(p: Parsers, st: Decoder, x: string, y: string)
    requires Ready(RunFrom(p, st, x)) && '<' !in y
    ensures var m := RunFrom(p, st, x);
      RunFrom(p, st, x + y) == m.(buf := m.buf + y, last := LastOr(y, m.last))
  {
    RunFromAppend(p, st, x, y);
    TextRun(p, RunFrom(p, st, x), y);
  }

  /** A whole closing tag read between tags, after `x`. */
  lemma CloseTagAfter(p: Parsers, st: Decoder, x: string, t: string)
    requires Ready(RunFrom(p, st, x)) && TagText(t) && t[1] == '/'
    ensures var m := RunFrom(p, st, x);
      RunFrom(p, st, x + t) == OnClosingTag(p, m.(sstate := InBoring, element := m.buf, closing := t, buf := [], last := '>'))
  {
    RunFromAppend(p, st, x, t);
    CloseTagRun(p, RunFrom(p, st, x), t);
  }

  /** The `<ele>` line sets the elevation to what `atof` makes of its text. */
  lemma EleLineRun(p: Parsers, fmt: Formats, st: Decoder, ele: real)
    requires Ready(st) && st.inTrkpt && '<' !in fmt.number(ele)
    ensures var r := RunFrom(p, st, EleLine(fmt, ele));
      && Ready(r) && r.inTrkpt && r.ele == p.atof(fmt.number(ele))
      && r.lat == st.lat && r.lon == st.lon && r.time == st.time && r.nextSeq == st.nextSeq && r.path == st.path
  {
    var e := fmt.number(ele);
    var x1 := "<ele>";
    NotStartsWithAt(x1, "<trkp", 1);
    OpenTagRun(p, st, x1);
    TextAfter(p, st, x1, e);
    assert RunFrom(p, st, x1 + e).buf == e;
    NotStartsWithAt("</ele>", "</ti", 2);
    NotStartsWithAt("</ele>", "</trkp", 2);
    assert StartsWith("</ele>", "</el");
    CloseTagAfter(p, st, x1 + e, "</ele>");
    TextAfter(p, st, x1 + e + "</ele>", "\n");
  }

  /** The `<time>` line sets the time to what `str_to_time_utc` makes of
      its text. */
  lemma TimeLineRun(p: Parsers, st: Decoder, time: string)
    requires Ready(st) && st.inTrkpt && '<' !in time
    ensures var r := RunFrom(p, st, TimeLine(time));
      && Ready(r) && r.inTrkpt && r.time == p.strToTimeUtc(time)
      && r.lat == st.lat && r.lon == st.lon && r.ele == st.ele && r.nextSeq == st.nextSeq && r.path == st.path
  {
    var x1 := "<time>";
    NotStartsWithAt(x1, "<trkp", 2);
    OpenTagRun(p, st, x1);
    TextAfter(p, st, x1, time);
    assert RunFrom(p, st, x1 + time).buf == time;
    assert StartsWith("</time>", "</ti");
    NotStartsWithAt("</time>", "</trkp", 3);
    CloseTagAfter(p, st, x1 + time, "</time>");
    TextAfter(p, st, x1 + time + "</time>", "\n");
  }

  /** `</trkpt>` closes the point and appends it with the next number. */
  lemma TrkptCloseRun(p: Parsers, st: Decoder)
    requires Ready(st) && st.inTrkpt
    ensures var r := RunFrom(p, st, "</trkpt>" + "\n");
      && Idle(r) && r.lat == st.lat && r.lon == st.lon && r.nextSeq == st.nextSeq + 1
      && r.path == st.path + [Point(Location(st.lat, st.lon, st.ele), st.time, st.nextSeq)]
  {
    NotStartsWithAt("</trkpt>", "</ti", 3);
    NotStartsWithAt("</trkpt>", "</el", 2);
    assert StartsWith("</trkpt>", "</trkp");
    CloseTagRun(p, st, "</trkpt>");
    TextAfter(p, st, "</trkpt>", "\n");
  }

  /** The texts the writer puts where the decoder does not expect a tag
      to start or end. */
  predicate PlainPoint(fmt: Formats, pt: Point) {
    && '>' !in fmt.number(pt.loc.lat) && '>' !in fmt.number(pt.loc.lon)
    && '<' !in fmt.number(pt.loc.ele) && '<' !in TimeToStrUtc(fmt.civil, pt.timestamp)
  }

  /** What the decoder makes of the block written for `pt`. */
  predicate ReadsBack(p: Parsers, fmt: Formats, q: Point, pt: Point, k: int) {
    var scanned := p.scanLatLon(TrkptTag(fmt, pt.loc.lat, pt.loc.lon));
    && q.sequence == k
    && q.loc.ele == p.atof(fmt.number(pt.loc.ele))
    && q.timestamp == p.strToTimeUtc(TimeToStrUtc(fmt.civil, pt.timestamp))
    && (scanned.0.Some? ==> q.loc.lat == scanned.0.value)
    && (scanned.1.Some? ==> q.loc.lon == scanned.1.value)
  }

  /** A point block adds exactly one point. */
  lemma PointBlockRun(p: Parsers, fmt: Formats, st: Decoder, pt: Point)
    requires Idle(st) && PlainPoint(fmt, pt)
    ensures var r := RunFrom(p, st, PointBlock(fmt, pt));
      && Idle(r) && r.nextSeq == st.nextSeq + 1
      && |r.path| == |st.path| + 1 && r.path[..|st.path|] == st.path
      && ReadsBack(p, fmt, r.path[|st.path|], pt, st.nextSeq)
  {
    var l1 := TrkptLine(fmt, pt.loc.lat, pt.loc.lon);
    var l2 := EleLine(fmt, pt.loc.ele);
    var l3 := TimeLine(TimeToStrUtc(fmt.civil, pt.timestamp));
    RunFromAppend(p, st, l1 + l2 + l3, "</trkpt>" + "\n");
    assert PointBlock(fmt, pt) == l1 + l2 + l3 + ("</trkpt>" + "\n");
    RunFromAppend(p, st, l1 + l2, l3);
    RunFromAppend(p, st, l1, l2);
    TrkptLineRun(p, fmt, st, pt.loc.lat, pt.loc.lon);
    var s1 := RunFrom(p, st, l1);
    EleLineRun(p, fmt, s1, pt.loc.ele);
    var s2 := RunFrom(p, st, l1 + l2);
    TimeLineRun(p, s2, TimeToStrUtc(fmt.civil, pt.timestamp));
    var s3 := RunFrom(p, st, l1 + l2 + l3);
    TrkptCloseRun(p, s3);
  }

  // ---------------------------------------------------------------------
  // The whole file
  // ---------------------------------------------------------------------

  /** Number formatting that never writes `<` or `>`, and a calendar text
      that never writes `<`: true of decimal numbers and of ISO 8601 dates. */
  ghost predicate PlainFormats(fmt: Formats) {
    && (forall x: real :: '<' !in fmt.number(x) && '>' !in fmt.number(x))
    && (forall secs: int :: '<' !in fmt.civil(secs))
  }

  lemma PlainFormatsWritePlainPoints(fmt: Formats, pt: Point)
    requires PlainFormats(fmt)
    ensures PlainPoint(fmt, pt)
  {
    var secs := TDiv(pt.timestamp, MicrosPerSecond);
    FractionSuffixIsPlain(pt.timestamp - secs * MicrosPerSecond);
    assert '<' !in fmt.civil(secs);
  }

  /** The header leaves the decoder between tags with no point read. */
  lemma HeaderRun(p: Parsers)
    ensures var r := RunFrom(p, Init, Header);
      Idle(r) && r.nextSeq == 0 && r.path == []
  {
    HeaderIsQuiet();
    QuietRun(p, Init, HeaderPieces);
  }

  /** The decoder's points after reading `w` are those read back from
      `s[lo..hi]`. */
  predicate HoldsReadBack(p: Parsers, fmt: Formats, r: Decoder, s: seq<Point>, lo: int, hi: int)
    requires 0 <= lo <= hi <= |s|
  {
    && Idle(r) && r.nextSeq == hi - lo && |r.path| == hi - lo
    && forall k | 0 <= k < hi - lo :: ReadsBack(p, fmt, r.path[k], s[lo + k], k)
  }

  /** One more point read back, after those of `s[lo..hi - 1]`. */
  lemma HoldsOneMore(p: Parsers, fmt: Formats, prev: Decoder, r: Decoder, s: seq<Point>, lo: int, hi: int)
    requires 0 <= lo < hi <= |s| && HoldsReadBack(p, fmt, prev, s, lo, hi - 1)
    requires Idle(r) && r.nextSeq == prev.nextSeq + 1
    requires |r.path| == |prev.path| + 1 && r.path[..|prev.path|] == prev.path
    requires ReadsBack(p, fmt, r.path[|prev.path|], s[hi - 1], prev.nextSeq)
    ensures HoldsReadBack(p, fmt, r, s, lo, hi)
  {
    forall k | 0 <= k < hi - lo
      ensures ReadsBack(p, fmt, r.path[k], s[lo + k], k)
    {
      if k < hi - 1 - lo {
        assert r.path[k] == prev.path[k];
      }
    }
  }

  /** Reading one more block extends what was read back by one point. */
  lemma BlockAfter(p: Parsers, fmt: Formats, w: string, s: seq<Point>, lo: int, hi: int)
    requires 0 <= lo < hi <= |s| && PlainPoint(fmt, s[hi - 1])
    requires HoldsReadBack(p, fmt, RunFrom(p, Init, w), s, lo, hi - 1)
    ensures HoldsReadBack(p, fmt, RunFrom(p, Init, w + PointBlock(fmt, s[hi - 1])), s, lo, hi)
  {
    var prev := RunFrom(p, Init, w);
    RunFromAppend(p, Init, w, PointBlock(fmt, s[hi - 1]));
    PointBlockRun(p, fmt, prev, s[hi - 1]);
    HoldsOneMore(p, fmt, prev, RunFrom(p, Init, w + PointBlock(fmt, s[hi - 1])), s, lo, hi);
  }

  /** After the header and the blocks of the points `lo` to `hi - 1`, the
      decoder holds one point per block, in order. */
  lemma {:induction false} WrittenRun(p: Parsers, fmt: Formats, s: seq<Point>, lo: int, hi: int)
    requires 0 <= lo <= hi <= |s| && forall i | lo <= i < hi :: PlainPoint(fmt, s[i])
    ensures HoldsReadBack(p, fmt, RunFrom(p, Init, Written(fmt, s, lo, hi)), s, lo, hi)
    decreases hi - lo
  {
    if lo == hi {
      HeaderRun(p);
    } else {
      WrittenRun(p, fmt, s, lo, hi - 1);
      BlockAfter(p, fmt, Written(fmt, s, lo, hi - 1), s, lo, hi);
    }
  }

  /** Reading a file written by `save_gpx_trk` gives back one point per
      point of the range, in order, numbered 0 to n - 1, whose elevation
      and time are what `atof` and `str_to_time_utc` make of the written
      text, and whose coordinates are what `sscanf` makes of the written
      tag wherever it converts them. */
  lemma DecodeEncode(p: Parsers, fmt: Formats, s: seq<Point>, lo: int, hi: int)
    requires 0 <= lo <= hi <= |s| && PlainFormats(fmt)
    ensures var d := DecodeGpx(p, EncodeGpx(fmt, s, lo, hi));
      && |d| == hi - lo
      && forall k | 0 <= k < hi - lo :: ReadsBack(p, fmt, d[k], s[lo + k], k)
  {
    var w := Written(fmt, s, lo, hi);
    var text := EncodeGpx(fmt, s, lo, hi);
    forall i | lo <= i < hi
      ensures PlainPoint(fmt, s[i])
    {
      PlainFormatsWritePlainPoints(fmt, s[i]);
    }
    WrittenRun(p, fmt, s, lo, hi);
    RunFromAppend(p, Init, w, Footer);
    FooterIsQuiet();
    QuietRun(p, RunFrom(p, Init, w), FooterPieces);
    assert Footer == Render(FooterPieces[..4]) + "</gpx>";
    assert text[|text| - 1] == '>';
    RunFromAppend(p, Init, text, [text[|text| - 1]]);
    TextRun(p, RunFrom(p, Init, text), [text[|text| - 1]]);
  }

  /** With parsers that invert the writer's formats at the values written
      (the coordinates, elevations and times of the range), reading back
      gives the points written, renumbered from 0. */
  lemma DecodeEncodeExact(p: Parsers, fmt: Formats, s: seq<Point>, lo: int, hi: int)
    requires 0 <= lo <= hi <= |s| && PlainFormats(fmt)
    requires forall i | lo <= i < hi ::
      && p.scanLatLon(TrkptTag(fmt, s[i].loc.lat, s[i].loc.lon)) == (Some(s[i].loc.lat), Some(s[i].loc.lon))
      && p.atof(fmt.number(s[i].loc.ele)) == s[i].loc.ele
      && p.strToTimeUtc(TimeToStrUtc(fmt.civil, s[i].timestamp)) == s[i].timestamp
    ensures var d := DecodeGpx(p, EncodeGpx(fmt, s, lo, hi));
      && |d| == hi - lo
      && forall k | 0 <= k < hi - lo :: d[k] == s[lo + k].(sequence := k)
  {
    DecodeEncode(p, fmt, s, lo, hi);
    var d := DecodeGpx(p, EncodeGpx(fmt, s, lo, hi));
    forall k | 0 <= k < hi - lo
      ensures d[k] == s[lo + k].(sequence := k)
    {
      var i := lo + k;
      assert p.scanLatLon(TrkptTag(fmt, s[i].loc.lat, s[i].loc.lon)) == (Some(s[i].loc.lat), Some(s[i].loc.lon));
    }
  }
}
