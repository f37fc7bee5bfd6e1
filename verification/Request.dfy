/**
  The HTTP request parser of http_server/http/Request.cpp, with a printer to parse back: request line
  and fields as sections 3 and 5 of RFC 9112 write them.
 */
module HttpRequest {
  import opened Options
  import opened Splitting

  datatype RequestType = GET | POST | HEAD | OPTIONS | PUT | DELETE

  function MethodName(m: RequestType): string {
    match m
    case GET => "GET"
    case POST => "POST"
    case HEAD => "HEAD"
    case OPTIONS => "OPTIONS"
    case PUT => "PUT"
    case DELETE => "DELETE"
  }

  /** `_string_to_type.at`, with `None` for the exception it throws. */
  function MethodOf(s: string): Option<RequestType> {
    if s == "GET" then Some(GET)
    else if s == "POST" then Some(POST)
    else if s == "OPTIONS" then Some(OPTIONS)
    else if s == "HEAD" then Some(HEAD)
    else if s == "PUT" then Some(PUT)
    else if s == "DELETE" then Some(DELETE)
    else None
  }

  const CONTENT_TYPE := "Content-Type"

  datatype Message = Message(kind: RequestType, path: string, version: string, fields: map<string, string>, boundary: string)

  /** `UnknownMethod` is the exception for a word that is no method; `MissingToken` stands for an index
      past the end of a token list, which the source does not check. */
  datatype ParseResult = Accepted(message: Message) | UnknownMethod | MissingToken

  /** One header line: ignored without a ": ", stored otherwise. */
  function Store(fields: map<string, string>, line: string): map<string, string> {
    var tokens := Split(line, ": ");
    if |tokens| == 1 then fields else fields[tokens[0] := tokens[1]]
  }

  function StoreAll(fields: map<string, string>, lines: seq<string>): map<string, string>
    decreases |lines|
  {
    if lines == [] then fields else StoreAll(Store(fields, lines[0]), lines[1..])
  }

  /** The boundary after the segments of the content type; `None` when a segment that mentions it has no "=". */
  function BoundaryFrom(boundary: string, tokens: seq<string>): Option<string>
    decreases |tokens|
  {
    if tokens == [] then Some(boundary)
    else if Find(tokens[0], "boundary") == -1 then BoundaryFrom(boundary, tokens[1..])
    else
      var parts := Split(tokens[0], "=");
      if |parts| < 2 then None else BoundaryFrom(parts[1], tokens[1..])
  }

  /** What `parse` makes of a text, given the fields and the boundary the object has already. */
  function Parse(text: string, fields0: map<string, string>, boundary0: string): ParseResult {
    var lines := Split(text, "\n");
    var tokens := Split(lines[0], " ");
    match MethodOf(tokens[0])
    case None => UnknownMethod
    case Some(m) =>
      if |tokens| < 3 then MissingToken
      else
        var fields := StoreAll(fields0, lines[1..]);
        if CONTENT_TYPE !in fields then Accepted(Message(m, tokens[1], tokens[2], fields, boundary0))
        else
          var segments := Split(fields[CONTENT_TYPE], "; ");
          match BoundaryFrom(boundary0, segments)
          case None => MissingToken
          case Some(b) =>
            Accepted(Message(m, tokens[1], tokens[2], fields[CONTENT_TYPE := Last(segments)], b))
  }

  class Request {
    var kind: RequestType
    var path: string
    var version: string
    var fields: map<string, string>
    var boundary: string

    constructor ()
      ensures fields == map[] && boundary == ""
    {
      kind := GET;
      path, version, boundary := "", "", "";
      fields := map[];
    }

    /** `parse`; after anything but acceptance the object is not to be used. */
    method ParseText(request: string) returns (accepted: bool)
      modifies this
      ensures accepted <==> Parse(request, old(fields), old(boundary)).Accepted?
      ensures accepted ==>
                Parse(request, old(fields), old(boundary))
                == Accepted(Message(kind, path, version, fields, boundary))
      ensures Parse(request, old(fields), old(boundary)).UnknownMethod? ==> unchanged(this)
    {
      hide Split;
      var lines, _ := StringSplit(request, "\n");
      var tokens, _ := StringSplit(lines[0], " ");
      match MethodOf(tokens[0]) {
        case None =>
          return false;
        case Some(m) =>
          kind := m;
      }
      if |tokens| < 3 {
        return false;
      }
      path := tokens[1];
      version := tokens[2];
      var i := 1;
      while i < |lines|
        invariant 1 <= i <= |lines|
        invariant StoreAll(fields, lines[i..]) == StoreAll(old(fields), lines[1..])
        invariant boundary == old(boundary)
        invariant path == tokens[1] && version == tokens[2] && MethodOf(tokens[0]) == Some(kind)
      {
        var pair, _ := StringSplit(lines[i], ": ");
        if |pair| != 1 {
          fields := fields[pair[0] := pair[1]];
        }
        i := i + 1;
      }
      if CONTENT_TYPE in fields {
        var segments, remainder := StringSplit(fields[CONTENT_TYPE], "; ");
        fields := fields[CONTENT_TYPE := remainder];
        ghost var parsed := (kind, path, version, fields);
        var j := 0;
        while j < |segments|
          invariant j <= |segments|
          invariant BoundaryFrom(boundary, segments[j..]) == BoundaryFrom(old(boundary), segments)
          invariant parsed == (kind, path, version, fields)
        {
          if Find(segments[j], "boundary") != -1 {
            var parts, _ := StringSplit(segments[j], "=");
            if |parts| < 2 {
              return false;
            }
            boundary := parts[1];
          }
          j := j + 1;
        }
      }
      return true;
    }
  }

  // ----- printing a request and parsing it back ------------------------------------------------------

  datatype Field = Field(name: string, value: string)

  function HeaderText(fs: seq<Field>): string {
    if fs == [] then "" else fs[0].name + ": " + fs[0].value + "\r\n" + HeaderText(fs[1..])
  }

  function Render(kind: RequestType, path: string, version: string, fs: seq<Field>): string {
    MethodName(kind) + " " + path + " " + version + "\r\n" + HeaderText(fs) + "\r\n"
  }

  /** The fields a list of header lines stands for: of equal names the last one counts. */
  function Meaning(fields: map<string, string>, fs: seq<Field>): map<string, string>
    decreases |fs|
  {
    if fs == [] then fields else Meaning(fields[fs[0].name := fs[0].value], fs[1..])
  }

  /** Words of the request line. */
  ghost predicate Word(s: string) {
    ControlFree(s) && ' ' !in s
  }

  ghost predicate Printable(f: Field) {
    ControlFree(f.name) && ControlFree(f.value) && !Contains(f.name, ": ") && !Contains(f.value, ": ")
  }

  function Line(f: Field): string { f.name + ": " + f.value }

  function Lines(fs: seq<Field>): (ls: seq<string>)
    ensures |ls| == |fs|
  {
    if fs == [] then [] else [Line(fs[0])] + Lines(fs[1..])
  }

  /** A word names a method if and only if the method prints as that word. */
  lemma MethodNames(kind: RequestType)
    ensures Word(MethodName(kind)) && forall s :: MethodOf(s) == Some(kind) <==> s == MethodName(kind)
  {
  }

  /** The words of the methods. */
  lemma MethodWords(s: string)
    ensures MethodOf(s) == Some(GET) <==> s == "GET"
    ensures MethodOf(s) == Some(POST) <==> s == "POST"
    ensures MethodOf(s) == Some(HEAD) <==> s == "HEAD"
    ensures MethodOf(s) == Some(OPTIONS) <==> s == "OPTIONS"
    ensures MethodOf(s) == Some(PUT) <==> s == "PUT"
    ensures MethodOf(s) == Some(DELETE) <==> s == "DELETE"
    ensures MethodOf(s) == None <==> forall m :: s != MethodName(m)
  {
    forall m
      ensures s == MethodName(m) ==> MethodOf(s) == Some(m)
    {
      MethodNames(m);
    }
    if MethodOf(s).Some? {
      MethodNames(MethodOf(s).value);
    }
  }

  lemma Assoc(a: string, b: string, c: string)
    ensures a + b + c == a + (b + c)
  {
  }

  lemma CleanLine(line: string)
    requires ControlFree(line)
    ensures Clean(line + "\r") == line && '\n' !in line + "\r"
  {
    CleanAppend(line, "\r");
    CleanKeeps(line);
    assert Clean("\r") == "";
    assert forall c :: c in line ==> !IsControl(c);
  }

  /** A line without control characters, ended by CR LF, comes off whole and clean. */
  lemma LineComesOff(line: string, rest: string)
    requires ControlFree(line)
    ensures Split(line + "\r\n" + rest, "\n") == [line] + Split(rest, "\n")
  {
    hide Split, Clean, Contains;
    var p := line + "\r";
    CleanLine(line);
    NoOccurrence(p, '\n');
    SplitOne(p, "\n", rest);
    assert "\r" + "\n" == "\r\n";
    Assoc(line, "\r", "\n");
  }

  lemma EmptyIsControlFree()
    ensures ControlFree("")
  {
  }

  lemma LineIsControlFree(f: Field)
    requires Printable(f)
    ensures ControlFree(Line(f))
  {
  }

  lemma {:induction false} HeaderLines(fs: seq<Field>)
    requires forall k :: 0 <= k < |fs| ==> Printable(fs[k])
    ensures Split(HeaderText(fs) + "\r\n", "\n") == Lines(fs) + ["", ""]
  {
    hide Split, Contains, Clean, ControlFree;
    if fs == [] {
      EmptyIsControlFree();
      LineComesOff("", "");
      NoOccurrence("", '\n');
      SplitNone("", "\n");
      assert "" + "\r\n" + "" == HeaderText(fs) + "\r\n";
    } else {
      HeaderLines(fs[1..]);
      LineIsControlFree(fs[0]);
      LineComesOff(Line(fs[0]), HeaderText(fs[1..]) + "\r\n");
      assert HeaderText(fs) + "\r\n" == Line(fs[0]) + "\r\n" + (HeaderText(fs[1..]) + "\r\n");
    }
  }

  /** A printable header line is stored as its name and value. */
  lemma LineIsStored(fields: map<string, string>, f: Field)
    requires Printable(f)
    ensures Store(fields, Line(f)) == fields[f.name := f.value]
  {
    SplitOne(f.name, ": ", f.value);
    SplitNone(f.value, ": ");
    CleanKeeps(f.name);
  }

  /** What any header line does, given as its pieces between the ": "s: with a single piece nothing; otherwise the
      first names the field and the second is its value, and whatever follows a second ": " is lost.  Control
      characters are dropped, except from a value that ends the line. */
  lemma AnyLineIsStored(fields: map<string, string>, ps: seq<string>)
    requires ps != [] && forall k :: 0 <= k < |ps| ==> !Contains(ps[k], ": ")
    ensures Store(fields, Join(ps, ": "))
         == if |ps| == 1 then fields
            else fields[Clean(ps[0]) := if |ps| == 2 then ps[1] else Clean(ps[1])]
  {
    var line := Join(ps, ": ");
    RawPiecesOfJoin(ps, ": ");
    TokensAreCleanedPieces(line, ": ");
    StoreTokens(fields, line);
    hide *;
    assert |ps| >= 2 ==> Split(line, ": ")[0] == Clean(ps[0]);
  }

  lemma StoreTokens(fields: map<string, string>, line: string)
    ensures var tokens := Split(line, ": ");
            Store(fields, line) == if |tokens| == 1 then fields else fields[tokens[0] := tokens[1]]
  {
  }

  /** So a clean value with a ": " inside is cut there. */
  lemma ValueIsCut(fields: map<string, string>, n: string, a: string, b: string)
    requires ControlFree(n) && ControlFree(a) && !Contains(n, ": ") && !Contains(a, ": ")
    ensures Store(fields, n + ": " + (a + ": " + b)) == fields[n := a]
  {
    SplitOne(n, ": ", a + ": " + b);
    SplitOne(a, ": ", b);
    CleanKeeps(n);
    CleanKeeps(a);
    StoreTokens(fields, n + ": " + (a + ": " + b));
    hide *;
  }

  lemma LineWithoutColonIsSkipped(fields: map<string, string>, line: string)
    requires !Contains(line, ": ")
    ensures Store(fields, line) == fields
  {
    SplitNone(line, ": ");
  }

  lemma {:induction false} StoreAllInTurn(fields: map<string, string>, a: seq<string>, b: seq<string>)
    ensures StoreAll(fields, a + b) == StoreAll(StoreAll(fields, a), b)
    decreases |a|
  {
    hide Store;
    if a == [] {
      assert a + b == b;
    } else {
      StoreAllInTurn(Store(fields, a[0]), a[1..], b);
      assert (a + b)[1..] == a[1..] + b;
    }
  }

  /** A line without ": ", the empty one too, does not matter, wherever it stands: the lines behind it count. */
  lemma LineWithoutColonDoesNotMatter(fields: map<string, string>, a: seq<string>, line: string, b: seq<string>)
    requires !Contains(line, ": ")
    ensures StoreAll(fields, a + ([line] + b)) == StoreAll(fields, a + b)
  {
    StoreAllInTurn(fields, a, [line] + b);
    StoreAllInTurn(fields, a, b);
    LineWithoutColonIsSkipped(StoreAll(fields, a), line);
    assert ([line] + b)[1..] == b;
    hide Store, Contains;
  }

  /** With a ": " inside, a value is cut short there: values come back exactly when they have none. */
  lemma ValueSurvivesIff(fields: map<string, string>, f: Field)
    requires ControlFree(f.name) && ControlFree(f.value) && !Contains(f.name, ": ")
    ensures f.name in Store(fields, Line(f))
    ensures Store(fields, Line(f))[f.name] == f.value <==> !Contains(f.value, ": ")
  {
    SplitOne(f.name, ": ", f.value);
    CleanKeeps(f.name);
    FirstToken(f.value, ": ");
  }

  /** The first token is the whole input exactly when there is no delimiter in it. */
  lemma FirstToken(s: string, d: string)
    requires d != "" && ControlFree(s)
    ensures Split(s, d)[0] == s <==> !Contains(s, d)
  {
    var i := Find(s, d);
    if i != -1 {
      SplitAtOccurrence(s, d, i);
      CleanKeeps(s[..i]);
    }
  }

  lemma {:induction false} LinesAreStored(fields: map<string, string>, fs: seq<Field>)
    requires forall k :: 0 <= k < |fs| ==> Printable(fs[k])
    ensures StoreAll(fields, Lines(fs) + ["", ""]) == Meaning(fields, fs)
    decreases |fs|
  {
    hide Store, Line, Printable;
    if fs == [] {
      EmptyLineIsSkipped(fields);
      assert (Lines(fs) + ["", ""])[1..] == [""];
      assert StoreAll(fields, [""]) == StoreAll(fields, [""][1..]) == fields;
    } else {
      LineIsStored(fields, fs[0]);
      LinesAreStored(fields[fs[0].name := fs[0].value], fs[1..]);
      assert (Lines(fs) + ["", ""])[1..] == Lines(fs[1..]) + ["", ""];
    }
  }

  lemma EmptyLineIsSkipped(fields: map<string, string>)
    ensures Store(fields, "") == fields
  {
    assert forall i: nat :: !OccursAt("", ": ", i);
    SplitNone("", ": ");
  }

  lemma RequestLineTokens(kind: RequestType, path: string, version: string)
    requires Word(path) && Word(version)
    ensures Split(MethodName(kind) + " " + path + " " + version, " ") == [MethodName(kind), path, version]
  {
    var name := MethodName(kind);
    MethodNames(kind);
    hide Split, Contains, Clean, MethodName, MethodOf;
    NoOccurrence(name, ' ');
    NoOccurrence(path, ' ');
    NoOccurrence(version, ' ');
    SplitOne(name, " ", path + " " + version);
    SplitOne(path, " ", version);
    SplitNone(version, " ");
    CleanKeeps(name);
    CleanKeeps(path);
    assert name + " " + path + " " + version == name + " " + (path + " " + version);
  }

  lemma {:induction false} WordsAreControlFree(ws: seq<string>)
    requires ws != [] && forall k :: 0 <= k < |ws| ==> Word(ws[k])
    ensures ControlFree(Join(ws, " "))
  {
    if |ws| > 1 {
      WordsAreControlFree(ws[1..]);
    }
  }

  /** What `parse` makes of the request line, for any number of words and any lines behind it: an unknown method
      is an error, fewer than three words are another, and otherwise the second and third word are the path and
      the version. */
  lemma RequestLineDecides(ws: seq<string>, rest: string, fields: map<string, string>, boundary: string)
    requires ws != [] && forall k :: 0 <= k < |ws| ==> Word(ws[k])
    ensures var r := Parse(Join(ws, " ") + "\r\n" + rest, fields, boundary);
            && (r.UnknownMethod? <==> forall m :: ws[0] != MethodName(m))
            && (|ws| < 3 ==> !r.Accepted?)
            && (r.Accepted? ==> ws[0] == MethodName(r.message.kind) && r.message.path == ws[1]
                                && r.message.version == ws[2])
  {
    WordsComeOff(ws, rest);
    MethodWords(ws[0]);
    if MethodOf(ws[0]).Some? {
      MethodNames(MethodOf(ws[0]).value);
    }
    TokensDecide(Join(ws, " ") + "\r\n" + rest, fields, boundary);
    hide *;
  }

  /** Words after the third one of the request line do not matter. */
  lemma FurtherWordsDoNotMatter(ws: seq<string>, rest: string, fields: map<string, string>, boundary: string)
    requires |ws| >= 3 && forall k :: 0 <= k < |ws| ==> Word(ws[k])
    ensures Parse(Join(ws, " ") + "\r\n" + rest, fields, boundary)
         == Parse(Join(ws[..3], " ") + "\r\n" + rest, fields, boundary)
  {
    WordsComeOff(ws, rest);
    WordsComeOff(ws[..3], rest);
    SameLines(Join(ws, " ") + "\r\n" + rest, Join(ws[..3], " ") + "\r\n" + rest, fields, boundary);
  }

  lemma WordsComeOff(ws: seq<string>, rest: string)
    requires ws != [] && forall k :: 0 <= k < |ws| ==> Word(ws[k])
    ensures var lines := Split(Join(ws, " ") + "\r\n" + rest, "\n");
            Split(lines[0], " ") == ws && lines[1..] == Split(rest, "\n")
  {
    WordsAreControlFree(ws);
    LineComesOff(Join(ws, " "), rest);
    forall k | 0 <= k < |ws|
      ensures ControlFree(ws[k]) && !Contains(ws[k], " ")
    {
      NoOccurrence(ws[k], ' ');
    }
    SplitOfJoin(ws, " ");
    hide Split, Join, Word, Contains, ControlFree;
  }

  lemma SameLines(a: string, b: string, fields: map<string, string>, boundary: string)
    requires var la, lb := Split(a, "\n"), Split(b, "\n");
             var ta, tb := Split(la[0], " "), Split(lb[0], " ");
             la[1..] == lb[1..] && |ta| >= 3 && |tb| >= 3 && ta[..3] == tb[..3]
    ensures Parse(a, fields, boundary) == Parse(b, fields, boundary)
  {
    var ta, tb := Split(Split(a, "\n")[0], " "), Split(Split(b, "\n")[0], " ");
    assert ta[0] == ta[..3][0] && ta[1] == ta[..3][1] && ta[2] == ta[..3][2];
    assert tb[0] == tb[..3][0] && tb[1] == tb[..3][1] && tb[2] == tb[..3][2];
    hide Split, StoreAll, BoundaryFrom, MethodOf;
  }

  lemma TokensDecide(text: string, fields: map<string, string>, boundary: string)
    ensures var tokens, r := Split(Split(text, "\n")[0], " "), Parse(text, fields, boundary);
            && (r.UnknownMethod? <==> MethodOf(tokens[0]) == None)
            && (r.Accepted? ==> |tokens| >= 3 && MethodOf(tokens[0]) == Some(r.message.kind)
                                && r.message.path == tokens[1] && r.message.version == tokens[2])
  {
    hide Split, StoreAll, BoundaryFrom, MethodOf;
  }

  lemma RequestLineIsControlFree(kind: RequestType, path: string, version: string)
    requires Word(path) && Word(version)
    ensures ControlFree(MethodName(kind) + " " + path + " " + version)
  {
    MethodNames(kind);
  }

  /** The lines of a printed request. */
  lemma RenderedLines(kind: RequestType, path: string, version: string, fs: seq<Field>)
    requires Word(path) && Word(version) && forall k :: 0 <= k < |fs| ==> Printable(fs[k])
    ensures Split(Render(kind, path, version, fs), "\n")
         == [MethodName(kind) + " " + path + " " + version] + (Lines(fs) + ["", ""])
  {
    hide Split, HeaderText, Lines, MethodName, ControlFree, Printable, Word;
    var line := MethodName(kind) + " " + path + " " + version;
    RequestLineIsControlFree(kind, path, version);
    LineComesOff(line, HeaderText(fs) + "\r\n");
    HeaderLines(fs);
    Assoc(line + "\r\n", HeaderText(fs), "\r\n");
  }

  /** What is left of the fields once `parse` has taken the content type apart. */
  function Destroyed(fields: map<string, string>): map<string, string> {
    if CONTENT_TYPE !in fields then fields
    else fields[CONTENT_TYPE := Last(RawPieces(fields[CONTENT_TYPE], "; "))]
  }

  function BoundaryOf(boundary: string, fields: map<string, string>): Option<string> {
    if CONTENT_TYPE !in fields then Some(boundary) else BoundaryFrom(boundary, Split(fields[CONTENT_TYPE], "; "))
  }

  /** Parsing a printed request, into an object in any state, gives back the method, the path, the version and
      every field, over those the object had, except that the content type is reduced to its last "; " segment;
      it fails exactly when a segment mentions a boundary without "=". */
  lemma RoundTrip(kind: RequestType, path: string, version: string, fs: seq<Field>,
                  fields0: map<string, string>, boundary0: string)
    requires Word(path) && Word(version) && forall k :: 0 <= k < |fs| ==> Printable(fs[k])
    ensures var fields := Meaning(fields0, fs);
            Parse(Render(kind, path, version, fs), fields0, boundary0)
            == match BoundaryOf(boundary0, fields)
               case None => MissingToken
               case Some(b) => Accepted(Message(kind, path, version, Destroyed(fields), b))
  {
    var line := MethodName(kind) + " " + path + " " + version;
    var text := Render(kind, path, version, fs);
    RenderedLines(kind, path, version, fs);
    RequestLineTokens(kind, path, version);
    LinesAreStored(fields0, fs);
    MethodNames(kind);
    hide Split, Render, BoundaryFrom, StoreAll, MethodName, MethodOf;
    assert Split(text, "\n")[0] == line;
    assert Split(text, "\n")[1..] == Lines(fs) + ["", ""];
    var fields := Meaning(fields0, fs);
    if CONTENT_TYPE in fields {
      TokensAreCleanedPieces(fields[CONTENT_TYPE], "; ");
    }
  }

  /** The last header line of a name counts; the fields of other names stay as they were. */
  lemma {:induction false} LastLineCounts(fields: map<string, string>, fs: seq<Field>, k: nat)
    requires k < |fs| && forall j :: k < j < |fs| ==> fs[j].name != fs[k].name
    ensures fs[k].name in Meaning(fields, fs) && Meaning(fields, fs)[fs[k].name] == fs[k].value
    decreases |fs|
  {
    if k == 0 {
      UnnamedStays(fields[fs[0].name := fs[0].value], fs[1..], fs[0].name);
    } else {
      LastLineCounts(fields[fs[0].name := fs[0].value], fs[1..], k - 1);
    }
  }

  lemma {:induction false} UnnamedStays(fields: map<string, string>, fs: seq<Field>, name: string)
    requires forall j :: 0 <= j < |fs| ==> fs[j].name != name
    ensures name in Meaning(fields, fs) <==> name in fields
    ensures name in fields ==> Meaning(fields, fs)[name] == fields[name]
    decreases |fs|
  {
    if fs != [] {
      UnnamedStays(fields[fs[0].name := fs[0].value], fs[1..], name);
    }
  }

  /** So every field of a printed request comes back, but for the content type. */
  lemma FieldsSurvive(kind: RequestType, path: string, version: string, fs: seq<Field>,
                      fields0: map<string, string>, boundary0: string, k: nat)
    requires Word(path) && Word(version) && forall j :: 0 <= j < |fs| ==> Printable(fs[j])
    requires k < |fs| && fs[k].name != "Content-Type" && forall j :: k < j < |fs| ==> fs[j].name != fs[k].name
    ensures var r := Parse(Render(kind, path, version, fs), fields0, boundary0);
            r.Accepted? ==> fs[k].name in r.message.fields && r.message.fields[fs[k].name] == fs[k].value
  {
    RoundTrip(kind, path, version, fs, fields0, boundary0);
    LastLineCounts(fields0, fs, k);
    hide Parse, Render, Meaning, BoundaryFrom, Split, RawPieces;
  }

  /** The content type itself comes back exactly when it has a single segment. */
  lemma ContentTypeSurvivesIff(fields: map<string, string>)
    requires "Content-Type" in fields
    ensures "Content-Type" in Destroyed(fields)
    ensures Destroyed(fields)["Content-Type"] == fields["Content-Type"] <==> !Contains(fields["Content-Type"], "; ")
  {
    LastPieceIsWholeIff(fields[CONTENT_TYPE], "; ");
  }

  lemma LastPieceUnfolds(s: string, d: string)
    requires d != ""
    ensures var i := Find(s, d);
            && (i == -1 <==> !Contains(s, d))
            && (i == -1 ==> Last(RawPieces(s, d)) == s)
            && (i != -1 ==> 0 <= i && i + |d| <= |s| && Last(RawPieces(s, d)) == Last(RawPieces(s[i + |d|..], d)))
  {
  }

  lemma {:induction false} LastPieceIsWholeIff(s: string, d: string)
    requires d != ""
    ensures |Last(RawPieces(s, d))| <= |s|
    ensures Last(RawPieces(s, d)) == s <==> !Contains(s, d)
    decreases |s|
  {
    hide RawPieces, Last, Contains, OccursAt;
    LastPieceUnfolds(s, d);
    var i := Find(s, d);
    if i != -1 {
      LastPieceIsWholeIff(s[i + |d|..], d);
    }
  }

  ghost predicate Mentions(token: string) {
    Contains(token, "boundary")
  }

  ghost predicate IsLastMention(tokens: seq<string>, k: nat) {
    k < |tokens| && Mentions(tokens[k]) && forall j :: k < j < |tokens| ==> !Mentions(tokens[j])
  }

  lemma HasPartsIff(token: string)
    ensures |Split(token, "=")| >= 2 <==> '=' in token
  {
    OccurrenceIff(token, '=');
    SplitUnfolds(token, "=");
    hide Split, Contains;
  }

  /** The outcome over any list of segments: none if and only if some segment mentions a boundary without
      "="; otherwise the last segment that mentions one decides, and without any the old boundary stays. */
  lemma {:induction false} LastMentionDecides(boundary: string, tokens: seq<string>)
    ensures BoundaryFrom(boundary, tokens).None? <==>
            exists k :: 0 <= k < |tokens| && Mentions(tokens[k]) && '=' !in tokens[k]
    ensures (forall k :: 0 <= k < |tokens| ==> !Mentions(tokens[k])) ==>
              BoundaryFrom(boundary, tokens) == Some(boundary)
    ensures BoundaryFrom(boundary, tokens).Some? ==>
              forall k: nat | IsLastMention(tokens, k) ::
                |Split(tokens[k], "=")| >= 2 && BoundaryFrom(boundary, tokens) == Some(Split(tokens[k], "=")[1])
    decreases |tokens|
  {
    if tokens != [] {
      HasPartsIff(tokens[0]);
      hide Split, Contains, Find;
      var rest := tokens[1..];
      assert forall k :: 0 < k < |tokens| ==> tokens[k] == rest[k - 1];
      var next := if Mentions(tokens[0]) && '=' in tokens[0] then Split(tokens[0], "=")[1] else boundary;
      LastMentionDecides(next, rest);
      MentionsFirst(boundary, tokens);
      hide BoundaryFrom, Mentions;
      assert forall k :: 0 <= k < |rest| ==> rest[k] == tokens[k + 1];
      assert forall k: nat | k > 0 && IsLastMention(tokens, k) :: IsLastMention(rest, k - 1);
    }
  }

  lemma MentionsFirst(boundary: string, tokens: seq<string>)
    requires tokens != []
    ensures !Mentions(tokens[0]) ==> BoundaryFrom(boundary, tokens) == BoundaryFrom(boundary, tokens[1..])
    ensures Mentions(tokens[0]) && '=' !in tokens[0] ==> BoundaryFrom(boundary, tokens).None?
    ensures Mentions(tokens[0]) && '=' in tokens[0] ==>
              |Split(tokens[0], "=")| >= 2
              && BoundaryFrom(boundary, tokens) == BoundaryFrom(Split(tokens[0], "=")[1], tokens[1..])
  {
    HasPartsIff(tokens[0]);
    hide Split, Contains;
  }

  /** A boundary parameter anywhere in the content type comes back if and only if it contains no "=", and
      no other segment mentions a boundary without "=", provided that no later segment mentions one. */
  lemma BoundaryRecoveredIff(boundary: string, tokens: seq<string>, k: nat, b: string)
    requires k < |tokens| && tokens[k] == "boundary=" + b && ControlFree(b)
    requires forall j :: k < j < |tokens| ==> !Mentions(tokens[j])
    ensures BoundaryFrom(boundary, tokens) == Some(b) <==>
            '=' !in b && forall j :: 0 <= j < |tokens| && Mentions(tokens[j]) ==> '=' in tokens[j]
  {
    LastMentionDecides(boundary, tokens);
    BoundaryOfSegment(b);
    assert IsLastMention(tokens, k);
    hide BoundaryFrom, Split, Find, Mentions;
  }

  /** The same for a whole request: printed with a content type of any segments, it is accepted with
      the boundary of segment `k` if and only if that condition holds. */
  lemma BoundaryRoundTrip(kind: RequestType, path: string, version: string, fs: seq<Field>,
                          fields0: map<string, string>, boundary0: string,
                          segments: seq<string>, k: nat, b: string)
    requires Word(path) && Word(version) && forall j :: 0 <= j < |fs| ==> Printable(fs[j])
    requires k < |segments| && segments[k] == "boundary=" + b
    requires forall j :: 0 <= j < |segments| ==> ControlFree(segments[j]) && !Contains(segments[j], "; ")
    requires forall j :: k < j < |segments| ==> !Mentions(segments[j])
    requires var fields := Meaning(fields0, fs);
             "Content-Type" in fields && fields["Content-Type"] == Join(segments, "; ")
    ensures var r := Parse(Render(kind, path, version, fs), fields0, boundary0);
            (r.Accepted? && r.message.boundary == b) <==>
            '=' !in b && forall j :: 0 <= j < |segments| && Mentions(segments[j]) ==> '=' in segments[j]
  {
    assert ControlFree(b) by {
      assert forall j :: 0 <= j < |b| ==> b[j] == segments[k][j + 9];
    }
    hide Parse, Render, Meaning, Split, Join, Contains, BoundaryFrom, Word, Printable, ControlFree, Mentions, Destroyed;
    SplitOfJoin(segments, "; ");
    RoundTrip(kind, path, version, fs, fields0, boundary0);
    BoundaryRecoveredIff(boundary0, segments, k, b);
  }

  lemma BoundaryOfSegment(b: string)
    requires ControlFree(b)
    ensures Find("boundary=" + b, "boundary") != -1
    ensures var parts := Split("boundary=" + b, "="); |parts| >= 2 && (parts[1] == b <==> '=' !in b)
  {
    hide Split, Contains, Clean, Find, OccursAt;
    var s := "boundary" + "=" + b;
    assert s == "boundary=" + b;
    MentionsBoundary(s);
    NoOccurrence("boundary", '=');
    SplitOne("boundary", "=", b);
    FirstToken(b, "=");
    OccurrenceIff(b, '=');
  }

  lemma MentionsBoundary(s: string)
    requires "boundary" <= s
    ensures Find(s, "boundary") != -1
  {
    assert s[0..8] == "boundary";
    assert OccursAt(s, "boundary", 0);
    NotFoundIff(s, "boundary");
  }

  lemma NotFoundIff(s: string, d: string)
    ensures Find(s, d) == -1 <==> forall i: nat :: !OccursAt(s, d, i)
  {
  }

  lemma OccurrenceIff(s: string, c: char)
    ensures Contains(s, [c]) <==> c in s
  {
    if c in s {
      var k :| 0 <= k < |s| && s[k] == c;
      assert s[k..k + 1] == [c];
      assert OccursAt(s, [c], k);
    } else {
      NoOccurrence(s, c);
    }
  }
}
