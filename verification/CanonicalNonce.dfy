/**
  The canonical nonce payload: the extension's builder, the phone's parser, and the
  cross-check by which the phone refuses bytes that it cannot rebuild from what it
  shows the user.
 */
module CanonicalNonce {
  import opened Text

  const V1 := "CAPAUTH_NONCE_V1"
  const V2 := "CAPAUTH_NONCE_V2"

  datatype Nonce = Nonce(
    nonce: string, clientNonce: string, origin: string, timestamp: string, service: string, expires: string)

  function Line(key: string, value: string): string {
    key + "=" + value
  }

  function LinesV2(t: Nonce): seq<string> {
    [V2, Line("nonce", t.nonce), Line("client_nonce", t.clientNonce), Line("origin", t.origin),
     Line("timestamp", t.timestamp), Line("service", t.service), Line("expires", t.expires)]
  }

  function LinesV1(t: Nonce): seq<string> {
    [V1, Line("nonce", t.nonce), Line("client_nonce", t.clientNonce),
     Line("timestamp", t.timestamp), Line("service", t.service), Line("expires", t.expires)]
  }

  function PrintV2(t: Nonce): string {
    Join(LinesV2(t), '\n')
  }

  /** The extension's builder: without an origin it falls back to the legacy form. */
  function BuildCanonical(t: Nonce): string {
    if t.origin == "" then Join(LinesV1(t), '\n') else PrintV2(t)
  }

  /** The printed bytes, written out from the end. */
  lemma PrintedInFull(t: Nonce)
    ensures var r6 := "\nexpires=" + t.expires;
            var r5 := "\nservice=" + t.service + r6;
            var r4 := "\ntimestamp=" + t.timestamp + r5;
            var r3 := "\norigin=" + t.origin + r4;
            var r2 := "\nclient_nonce=" + t.clientNonce + r3;
            PrintV2(t) == "CAPAUTH_NONCE_V2" + ("\nnonce=" + t.nonce + r2)
  {
    var l := LinesV2(t);
    hide Line, LinesV2, Join;
    LinesInFull(t);
    LinesInOrder(t);
    SixLines(l[1], l[2], l[3], l[4], l[5], l[6]);
    MoreLines(l[0], l[1..]);
    assert l[1..] == [l[1], l[2], l[3], l[4], l[5], l[6]] && l == [l[0]] + l[1..];
  }

  /** The legacy form has no origin, and the other version. */
  lemma LegacyInFull(t: Nonce)
    requires t.origin == ""
    ensures var r5 := "\nexpires=" + t.expires;
            var r4 := "\nservice=" + t.service + r5;
            var r3 := "\ntimestamp=" + t.timestamp + r4;
            var r2 := "\nclient_nonce=" + t.clientNonce + r3;
            BuildCanonical(t) == "CAPAUTH_NONCE_V1" + ("\nnonce=" + t.nonce + r2)
  {
    var l := LinesV1(t);
    hide Line, LinesV1, Join;
    LinesInFull(t);
    LinesInOrder(t);
    SixLines(l[0], l[1], l[2], l[3], l[4], l[5]);
    assert l == [l[0], l[1], l[2], l[3], l[4], l[5]];
  }

  lemma LinesInOrder(t: Nonce)
    ensures LinesV2(t) == [V2, Line("nonce", t.nonce), Line("client_nonce", t.clientNonce), Line("origin", t.origin),
                           Line("timestamp", t.timestamp), Line("service", t.service), Line("expires", t.expires)]
    ensures LinesV1(t) == [V1, Line("nonce", t.nonce), Line("client_nonce", t.clientNonce),
                           Line("timestamp", t.timestamp), Line("service", t.service), Line("expires", t.expires)]
  {
  }

  lemma LastLine(line: string)
    ensures Join([line], '\n') == line
  {
  }

  lemma MoreLines(line: string, lines: seq<string>)
    requires lines != []
    ensures Join([line] + lines, '\n') == line + (['\n'] + Join(lines, '\n'))
  {
    JoinCons(line, lines, '\n');
  }

  lemma SixLines(a: string, b: string, c: string, d: string, e: string, f: string)
    ensures Join([a, b, c, d, e, f], '\n')
            == a + (['\n'] + (b + (['\n'] + (c + (['\n'] + (d + (['\n'] + (e + (['\n'] + f)))))))))
  {
    hide Join;
    LastLine(f);
    MoreLines(e, [f]);
    MoreLines(d, [e] + [f]);
    MoreLines(c, [d] + ([e] + [f]));
    MoreLines(b, [c] + ([d] + ([e] + [f])));
    MoreLines(a, [b] + ([c] + ([d] + ([e] + [f]))));
    assert [a, b, c, d, e, f] == [a] + ([b] + ([c] + ([d] + ([e] + [f]))));
  }

  lemma LinesInFull(t: Nonce)
    ensures forall rest :: ['\n'] + (Line("nonce", t.nonce) + rest) == "\nnonce=" + t.nonce + rest
    ensures forall rest ::
              ['\n'] + (Line("client_nonce", t.clientNonce) + rest) == "\nclient_nonce=" + t.clientNonce + rest
    ensures forall rest :: ['\n'] + (Line("origin", t.origin) + rest) == "\norigin=" + t.origin + rest
    ensures forall rest :: ['\n'] + (Line("timestamp", t.timestamp) + rest) == "\ntimestamp=" + t.timestamp + rest
    ensures forall rest :: ['\n'] + (Line("service", t.service) + rest) == "\nservice=" + t.service + rest
    ensures ['\n'] + Line("expires", t.expires) == "\nexpires=" + t.expires
  {
    assert ['\n'] + ("nonce" + "=") == "\nnonce=" && ['\n'] + ("client_nonce" + "=") == "\nclient_nonce=";
    assert ['\n'] + ("origin" + "=") == "\norigin=" && ['\n'] + ("timestamp" + "=") == "\ntimestamp=";
    assert ['\n'] + ("service" + "=") == "\nservice=" && ['\n'] + ("expires" + "=") == "\nexpires=";
  }

  // ---------------------------------------------------------------------------
  // The phone's parser
  // ---------------------------------------------------------------------------

  type Fields = map<string, string>

  datatype Parsed = Parsed(version: string, fields: Fields)

  function AddField(fields: Fields, line: string): Fields {
    var eq := IndexOf(line, '=');
    if eq > 0 then fields[line[..eq] := line[eq + 1..]] else fields
  }

  /** A line gives a field exactly if something stands before its first equals sign. */
  lemma FieldOfLine(fields: Fields, key: string, value: string, line: string)
    requires '=' !in key && '=' !in line
    ensures AddField(fields, key + "=" + value) == if key == "" then fields else fields[key := value]
    ensures AddField(fields, line) == fields
  {
    var whole := key + "=" + value;
    assert whole[|key|] == '=' && whole[..|key|] == key && whole[|key| + 1..] == value;
    IndexOfFirst(whole, '=', |key|);
  }

  /** The fields of the lines before position `n`, the version line excluded; later lines win. */
  function FieldsBefore(lines: seq<string>, n: nat): Fields
    requires n <= |lines|
  {
    if n <= 1 then map[] else AddField(FieldsBefore(lines, n - 1), lines[n - 1])
  }

  function Parse(payload: string): Parsed {
    var lines := Split(payload, '\n');
    Parsed(lines[0], FieldsBefore(lines, |lines|))
  }

  method ParseCanonical(payload: string) returns (parsed: Parsed)
    ensures parsed == Parse(payload)
  {
    var lines := Split(payload, '\n');
    var fields: Fields := map[];
    for i := 1 to |lines|
      invariant fields == FieldsBefore(lines, i)
    {
      var eq := IndexOf(lines[i], '=');
      if eq > 0 {
        fields := fields[lines[i][..eq] := lines[i][eq + 1..]];
      }
    }
    return Parsed(lines[0], fields);
  }

  /** A missing field prints as the word that string interpolation gives it. */
  function Get(fields: Fields, key: string): string {
    if key in fields then fields[key] else "undefined"
  }

  function NonceOf(fields: Fields): Nonce {
    Nonce(Get(fields, "nonce"), Get(fields, "client_nonce"), Get(fields, "origin"),
          Get(fields, "timestamp"), Get(fields, "service"), Get(fields, "expires"))
  }

  function RebuildV2(fields: Fields): string {
    PrintV2(NonceOf(fields))
  }

  /** The cross-check: a V2 payload must be exactly what its own fields print as. */
  predicate CrossCheck(payload: string) {
    Parse(payload).version == V2 ==> RebuildV2(Parse(payload).fields) == payload
  }

  // ---------------------------------------------------------------------------
  // What the cross-check accepts
  // ---------------------------------------------------------------------------

  predicate OneLine(t: Nonce) {
    && '\n' !in t.nonce && '\n' !in t.clientNonce && '\n' !in t.origin
    && '\n' !in t.timestamp && '\n' !in t.service && '\n' !in t.expires
  }

  lemma LineAddsField(fields: Fields, key: string, value: string)
    requires key != "" && '=' !in key
    ensures AddField(fields, Line(key, value)) == fields[key := value]
  {
    var line := Line(key, value);
    assert line[|key|] == '=' && line[..|key|] == key && line[|key| + 1..] == value;
    IndexOfFirst(line, '=', |key|);
  }

  lemma KeysArePlain()
    ensures '=' !in "nonce" && '=' !in "client_nonce" && '=' !in "origin"
    ensures '=' !in "timestamp" && '=' !in "service" && '=' !in "expires"
  {
  }

  lemma KeysDiffer()
    ensures "nonce" !in ["client_nonce", "origin", "timestamp", "service", "expires"]
    ensures "client_nonce" !in ["origin", "timestamp", "service", "expires"]
    ensures "origin" !in ["timestamp", "service", "expires"]
    ensures "timestamp" !in ["service", "expires"] && "service" != "expires"
  {
    assert "nonce"[0] == 'n' && "client_nonce"[0] == 'c' && "origin"[0] == 'o';
    assert "timestamp"[0] == 't' && "service"[0] == 's' && "expires"[0] == 'e';
  }

  lemma SixFields(t: Nonce)
    ensures NonceOf(map["nonce" := t.nonce]["client_nonce" := t.clientNonce]["origin" := t.origin]
                       ["timestamp" := t.timestamp]["service" := t.service]["expires" := t.expires]) == t
  {
    KeysDiffer();
  }

  lemma PrintedFields(t: Nonce)
    ensures NonceOf(FieldsBefore(LinesV2(t), 7)) == t
  {
    hide AddField, Line, NonceOf;
    var lines := LinesV2(t);
    KeysArePlain();
    LineAddsField(FieldsBefore(lines, 1), "nonce", t.nonce);
    LineAddsField(FieldsBefore(lines, 2), "client_nonce", t.clientNonce);
    LineAddsField(FieldsBefore(lines, 3), "origin", t.origin);
    LineAddsField(FieldsBefore(lines, 4), "timestamp", t.timestamp);
    LineAddsField(FieldsBefore(lines, 5), "service", t.service);
    LineAddsField(FieldsBefore(lines, 6), "expires", t.expires);
    SixFields(t);
  }

  lemma LineIsFree(key: string, value: string)
    requires '\n' !in key && '\n' !in value
    ensures '\n' !in Line(key, value)
  {
  }

  lemma LabelsAreFree()
    ensures '\n' !in V2
    ensures '\n' !in "nonce" && '\n' !in "client_nonce" && '\n' !in "origin"
    ensures '\n' !in "timestamp" && '\n' !in "service" && '\n' !in "expires"
  {
  }

  lemma LinesAreFree(t: Nonce)
    requires OneLine(t)
    ensures Free(LinesV2(t), '\n')
  {
    LabelsAreFree();
    LineIsFree("nonce", t.nonce);
    LineIsFree("client_nonce", t.clientNonce);
    LineIsFree("origin", t.origin);
    LineIsFree("timestamp", t.timestamp);
    LineIsFree("service", t.service);
    LineIsFree("expires", t.expires);
  }

  /** Parsing inverts printing. */
  lemma ParseOfPrint(t: Nonce)
    requires OneLine(t)
    ensures Parse(PrintV2(t)).version == V2
    ensures NonceOf(Parse(PrintV2(t)).fields) == t
  {
    LinesAreFree(t);
    SplitOfJoin(LinesV2(t), '\n');
    PrintedFields(t);
  }

  lemma {:induction false} FieldValuesAreOneLine(lines: seq<string>, n: nat)
    requires n <= |lines| && Free(lines, '\n')
    ensures forall key :: key in FieldsBefore(lines, n) ==> '\n' !in FieldsBefore(lines, n)[key]
    decreases n
  {
    if n > 1 {
      FieldValuesAreOneLine(lines, n - 1);
      assert lines[n - 1] in lines;
    }
  }

  lemma ParsedIsOneLine(payload: string)
    ensures OneLine(NonceOf(Parse(payload).fields))
  {
    var lines := Split(payload, '\n');
    SplitIsFree(payload, '\n');
    FieldValuesAreOneLine(lines, |lines|);
    assert '\n' !in "undefined";
  }

  /**
    The cross-check accepts exactly the V2 payloads that print some tuple of six one-line fields,
    and the fields shown to the user are then the only such tuple.
   */
  lemma CrossCheckAcceptsPrintedForms(payload: string)
    requires Parse(payload).version == V2
    ensures CrossCheck(payload) <==> exists t :: OneLine(t) && PrintV2(t) == payload
    ensures CrossCheck(payload) ==>
            forall t :: OneLine(t) && PrintV2(t) == payload ==> t == NonceOf(Parse(payload).fields)
  {
    var shown := NonceOf(Parse(payload).fields);
    ParsedIsOneLine(payload);
    if CrossCheck(payload) {
      assert OneLine(shown) && PrintV2(shown) == payload;
    }
    forall t | OneLine(t) && PrintV2(t) == payload ensures t == shown {
      ParseOfPrint(t);
    }
  }

  // ---------------------------------------------------------------------------
  // What the extension builds
  // ---------------------------------------------------------------------------

  function NewlinesIn(t: Nonce): nat {
    multiset(t.nonce)['\n'] + multiset(t.clientNonce)['\n'] + multiset(t.origin)['\n']
    + multiset(t.timestamp)['\n'] + multiset(t.service)['\n'] + multiset(t.expires)['\n']
  }

  lemma NewlinesInLine(key: string, value: string)
    requires '\n' !in key
    ensures multiset(Line(key, value))['\n'] == multiset(value)['\n']
  {
  }

  function Newlines(lines: seq<string>): nat {
    if lines == [] then 0 else multiset(lines[0])['\n'] + Newlines(lines[1..])
  }

  lemma {:induction false} NewlinesInJoin(lines: seq<string>)
    requires lines != []
    ensures multiset(Join(lines, '\n'))['\n'] == Newlines(lines) + |lines| - 1
    decreases |lines|
  {
    if |lines| > 1 {
      NewlinesInJoin(lines[1..]);
    }
  }

  lemma NewlinesCons(line: string, rest: seq<string>)
    ensures Newlines([line] + rest) == multiset(line)['\n'] + Newlines(rest)
  {
    assert ([line] + rest)[1..] == rest;
  }

  lemma NewlinesOfSeven(a: string, b: string, c: string, d: string, e: string, f: string, g: string)
    ensures Newlines([a, b, c, d, e, f, g]) ==
            multiset(a)['\n'] + multiset(b)['\n'] + multiset(c)['\n'] + multiset(d)['\n']
            + multiset(e)['\n'] + multiset(f)['\n'] + multiset(g)['\n']
  {
    NewlinesCons(g, []);
    NewlinesCons(f, [g]);
    NewlinesCons(e, [f, g]);
    NewlinesCons(d, [e, f, g]);
    NewlinesCons(c, [d, e, f, g]);
    NewlinesCons(b, [c, d, e, f, g]);
    NewlinesCons(a, [b, c, d, e, f, g]);
    assert [a] + [b, c, d, e, f, g] == [a, b, c, d, e, f, g] && [b] + [c, d, e, f, g] == [b, c, d, e, f, g];
    assert [c] + [d, e, f, g] == [c, d, e, f, g] && [d] + [e, f, g] == [d, e, f, g];
    assert [e] + [f, g] == [e, f, g] && [f] + [g] == [f, g] && [g] + [] == [g];
  }

  lemma PrintedLineCount(t: Nonce)
    ensures |Split(PrintV2(t), '\n')| == 7 + NewlinesIn(t)
  {
    var lines := LinesV2(t);
    LabelsAreFree();
    NewlinesInLine("nonce", t.nonce);
    NewlinesInLine("client_nonce", t.clientNonce);
    NewlinesInLine("origin", t.origin);
    NewlinesInLine("timestamp", t.timestamp);
    NewlinesInLine("service", t.service);
    NewlinesInLine("expires", t.expires);
    NewlinesOfSeven(lines[0], lines[1], lines[2], lines[3], lines[4], lines[5], lines[6]);
    NewlinesInJoin(lines);
    PartsCountSeparators(PrintV2(t), '\n');
  }

  /** What the extension builds for an origin passes the phone's check exactly when no field breaks a line. */
  lemma BuiltPayloadIsAccepted(t: Nonce)
    requires t.origin != ""
    ensures Parse(BuildCanonical(t)).version == V2
    ensures CrossCheck(BuildCanonical(t)) <==> OneLine(t)
    ensures OneLine(t) ==> NonceOf(Parse(BuildCanonical(t)).fields) == t
  {
    var payload := BuildCanonical(t);
    LabelsAreFree();
    JoinCons(V2, LinesV2(t)[1..], '\n');
    assert LinesV2(t) == [V2] + LinesV2(t)[1..];
    SplitCons(V2, Join(LinesV2(t)[1..], '\n'), '\n');
    if OneLine(t) {
      ParseOfPrint(t);
    }
    if CrossCheck(payload) {
      CrossCheckAcceptsPrintedForms(payload);
      var shown :| OneLine(shown) && PrintV2(shown) == payload;
      PrintedLineCount(shown);
      PrintedLineCount(t);
    }
  }

  /** Without an origin the payload is of the legacy version, which the cross-check does not examine. */
  lemma LegacyPayloadIsNotChecked(t: Nonce)
    requires t.origin == ""
    ensures Parse(BuildCanonical(t)).version == V1
    ensures CrossCheck(BuildCanonical(t))
  {
    var rest := [Line("nonce", t.nonce), Line("client_nonce", t.clientNonce),
                 Line("timestamp", t.timestamp), Line("service", t.service), Line("expires", t.expires)];
    assert '\n' !in V1;
    JoinCons(V1, rest, '\n');
    SplitCons(V1, Join(rest, '\n'), '\n');
    assert V1[15] != V2[15];
  }

  /** The payload that the extension builds for an origin names it. */
  lemma OriginIsAField(t: Nonce)
    requires t.origin != "" && OneLine(t)
    ensures var fields := Parse(BuildCanonical(t)).fields;
            "origin" in fields && fields["origin"] == t.origin
  {
    hide AddField, Line, NonceOf;
    var lines := LinesV2(t);
    LinesAreFree(t);
    SplitOfJoin(lines, '\n');
    KeysArePlain();
    KeysDiffer();
    LineAddsField(FieldsBefore(lines, 3), "origin", t.origin);
    LineAddsField(FieldsBefore(lines, 4), "timestamp", t.timestamp);
    LineAddsField(FieldsBefore(lines, 5), "service", t.service);
    LineAddsField(FieldsBefore(lines, 6), "expires", t.expires);
  }

  lemma {:induction false} SplitTrailing(s: string, sep: char)
    ensures Split(s + [sep], sep) == Split(s, sep) + [""]
    decreases |s|
  {
    if s == "" {
      assert s + [sep] == [sep] && [sep][1..] == "" && Split("", sep) == [""];
    } else {
      assert (s + [sep])[1..] == s[1..] + [sep];
      SplitTrailing(s[1..], sep);
    }
  }

  /** A newline at the end adds an empty line, which parses to nothing; only the checked version notices. */
  lemma TrailingNewlineIsNotShown(payload: string)
    ensures Parse(payload + ['\n']) == Parse(payload)
    ensures Parse(payload).version != V2 ==> CrossCheck(payload + ['\n'])
  {
    var lines := Split(payload, '\n');
    SplitTrailing(payload, '\n');
    FieldsOfPrefix(lines, "", |lines|);
    assert (lines + [""])[|lines|] == "";
  }

  lemma {:induction false} FieldsOfPrefix(lines: seq<string>, line: string, n: nat)
    requires n <= |lines|
    ensures FieldsBefore(lines + [line], n) == FieldsBefore(lines, n)
    decreases n
  {
    if n > 1 {
      FieldsOfPrefix(lines, line, n - 1);
    }
  }
}
