/** The HTTP printer and parser of com/HTTP/httpparser.cpp: messages as in sections 2.1, 3 and 4 of RFC 9112. */
module Http {
  import opened Options
  import opened Seqs
  import opened CStrings

  const CRLF := "\r\n"
  const BLANK := "\r\n\r\n"

  const HOST := "Host: "
  const AUTHORIZATION := "Authorization: "
  const TYPE := "Content-Type: "
  const LENGTH := "Content-Length: "

  datatype RequestType = NotSet | Get | Put | Post

  datatype Pair = Pair(name: string, value: string)

  // ---------------------------------------------------------------- the printer

  // Without a type nothing is assigned, so what the destination held stays in front.
  function Verb(dest: string, t: RequestType): string {
    match t
    case Get => "GET "
    case Put => "PUT "
    case Post => "POST "
    case NotSet => dest
  }

  function Target(path: string, params: string): string {
    if params == [] then path else path + ("?" + params)
  }

  // Header fields, each on a line of its own.
  function Lines(lines: seq<string>): string {
    if lines == [] then [] else CRLF + (lines[0] + Lines(lines[1..]))
  }

  function HostLines(host: string, port: nat, auth: string): seq<string> {
    [HOST + (host + (":" + Decimal(port)))] + if auth == [] then [] else [AUTHORIZATION + auth]
  }

  function BodyLines(contentType: string, body: string): seq<string> {
    if contentType == [] then []
    else [TYPE + contentType] + [LENGTH + Decimal(|body|)]
  }

  // The header is only ended when there is a content type.
  function Ending(contentType: string, body: string): string {
    if contentType == [] then body else BLANK + body
  }

  // What follows the request target.
  function Rest(lines: seq<string>, ending: string): string {
    " " + ("HTTP/1.1" + (Lines(lines) + ending))
  }

  function GetRequest(host: string, port: nat, path: string, auth: string, params: string): string {
    "GET " + (Target(path, params) + Rest(HostLines(host, port, auth), BLANK))
  }

  function BodyRequest(dest: string, t: RequestType, host: string, port: nat, path: string, auth: string,
                       params: string, body: string, contentType: string): string {
    Verb(dest, t) + (Target(path, params) +
      Rest(HostLines(host, port, auth) + BodyLines(contentType, body), Ending(contentType, body)))
  }

  function Response(status: string, contentType: string, body: string): string {
    status + (Lines(BodyLines(contentType, body)) + Ending(contentType, body))
  }

  // ---------------------------------------------------------------- the parser, on the text before the NUL

  // parseGETParameters before it clears everything again; None when a name has no value.
  function Pairs(text: string): Option<seq<Pair>>
    decreases |text|
  {
    if text == [] then Some([])
    else
      var eq := Find(text, "=");
      if eq < 0 then None
      else
        var value := text[eq + 1..];
        var amp := Find(value, "&");
        if amp < 0 then Some([Pair(text[..eq], value)])
        else Prepend([Pair(text[..eq], value[..amp])], Pairs(value[amp + 1..]))
  }

  function Prepend<T>(first: seq<T>, rest: Option<seq<T>>): Option<seq<T>> {
    match rest
    case None => None
    case Some(r) => Some(first + r)
  }

  // All the pairs, or none.
  function Parameters(text: string): seq<Pair> {
    match Pairs(text)
    case None => []
    case Some(pairs) => pairs
  }

  // Without a question mark the parameters are left as they were.
  datatype Got = Got(path: string, parameters: Option<seq<Pair>>)

  function ParseGet(text: string): Option<Got> {
    if "GET " <= text then ParseTarget(text[4..]) else None
  }

  // The search for the question mark starts behind the first character of the path; when the path is empty, that is
  // behind the NUL which has just replaced the space.
  function Searched(data: string): string
    requires Find(data, " ") >= 0
  {
    var end := Find(data, " ");
    if end == 0 then data[1..] else data[1..end]
  }

  // The path in front of a question mark
  function Queried(data: string, mark: nat): string
    requires mark < |data|
  {
    if Find(data, " ") == 0 then [] else data[..mark + 1]
  }

  function ParseTarget(data: string): Option<Got> {
    var end := Find(data, " ");
    if end < 0 then None
    else
      var mark := Find(Searched(data), "?");
      if mark < 0 then Some(Got(data[..end], None))
      else Some(Got(Queried(data, mark), Some(Parameters(Searched(data)[mark + 1..]))))
  }

  // getTypeOfRequest
  function TypeOf(text: string): RequestType {
    if "GET " <= text then Get else if "PUT " <= text then Put else if "POST " <= text then Post else NotSet
  }

  function ParsePutPost(text: string, path: string, content: string): (bool, string, string) {
    if "PUT " <= text then ParseContent(text[4..], path, content)
    else if "POST " <= text then ParseContent(text[5..], path, content)
    else (false, path, content)
  }

  // What follows the first blank line
  function AfterBlank(text: string): Option<string> {
    var blank := Find(text, BLANK);
    if blank < 0 then None else Some(text[blank + 4..])
  }

  // The path may be assigned even when there is no content.
  function ParseContent(data: string, path: string, content: string): (bool, string, string) {
    var end := Find(data, " ");
    if end < 0 then (false, path, content)
    else
      match AfterBlank(data[end + 1..])
      case None => (false, data[..end], content)
      case Some(found) => (true, data[..end], found)
  }

  // CParameterParser with a space as separator: words may be empty.
  function Words(line: string): (words: seq<string>)
    ensures words != []
    decreases |line|
  {
    var space := Find(line, " ");
    if space < 0 then [line] else [line[..space]] + Words(line[space + 1..])
  }

  function ParseResponse(text: string, code: string, body: string): (bool, string, string) {
    var end := Find(text, CRLF);
    if end < 0 || |Words(text[..end])| < 3 then (false, code, body)
    else
      (true, Words(text[..end])[1], match AfterBlank(text) case None => [] case Some(found) => found)
  }

  // ---------------------------------------------------------------- C strings

  // The C string a buffer holds
  function CStr(buffer: seq<char>): (s: string)
    ensures |s| <= |buffer|
  {
    if buffer == [] || buffer[0] == NUL then [] else [buffer[0]] + CStr(buffer[1..])
  }

  lemma {:induction false} CStrSkip(before: string, after: seq<char>)
    requires NUL !in before
    ensures CStr(before + after) == before + CStr(after)
  {
    AppendTail(before, after);
    if before != [] {
      assert NUL != before[0];
      CStrSkip(before[1..], after);
      assert before == [before[0]] + before[1..];
    }
  }

  // The first occurrence of a character cuts a text in two.
  lemma {:induction false} Cut(text: string, c: char) returns (before: string, after: string)
    requires c in text
    ensures text == before + ([c] + after) && c !in before && Find(text, [c]) == |before|
  {
    if text[0] == c {
      before, after := [], text[1..];
    } else {
      before, after := Cut(text[1..], c);
      before := [text[0]] + before;
    }
  }

  lemma CutIs(before: string, c: char, after: string)
    requires c !in before
    ensures var text := before + ([c] + after);
            Find(text, [c]) == |before| && text[..|before|] == before && text[|before| + 1..] == after
  {
    FindSkip(before, [c], [c] + after);
    assert [c] <= [c] + after;
  }

  // ---------------------------------------------------------------- parameters

  function Joined(pairs: seq<Pair>): string {
    if pairs == [] then []
    else
      pairs[0].name + ("=" + (pairs[0].value + if |pairs| == 1 then [] else "&" + Joined(pairs[1..])))
  }

  predicate Readable(pairs: seq<Pair>) {
    forall k :: 0 <= k < |pairs| ==> '=' !in pairs[k].name && '&' !in pairs[k].value
  }

  lemma LastPairRead(name: string, value: string)
    requires '=' !in name && '&' !in value
    ensures Pairs(name + ("=" + value)) == Some([Pair(name, value)])
  {
    CutIs(name, '=', value);
    FindNone(value, '&');
  }

  lemma NextPairRead(name: string, value: string, rest: string)
    requires '=' !in name && '&' !in value
    ensures Pairs(name + ("=" + (value + ("&" + rest)))) == Prepend([Pair(name, value)], Pairs(rest))
  {
    CutIs(name, '=', value + ("&" + rest));
    CutIs(value, '&', rest);
  }

  // One step of the parameter parser on a text in its printed form.
  lemma PairsStep(name: string, value: string, more: string)
    requires '=' !in name && '&' !in value
    requires more == [] || more[0] == '&'
    ensures Pairs(name + ("=" + (value + more))) ==
            if more == [] then Some([Pair(name, value)]) else Prepend([Pair(name, value)], Pairs(more[1..]))
  {
    if more == [] {
      assert value + more == value;
      LastPairRead(name, value);
    } else {
      assert more == "&" + more[1..];
      NextPairRead(name, value, more[1..]);
    }
  }

  // Every text with an equals sign has the printed form.
  lemma PrintedForm(text: string) returns (name: string, value: string, more: string)
    requires '=' in text
    ensures text == name + ("=" + (value + more)) && '=' !in name && '&' !in value
    ensures more == [] || more[0] == '&'
    ensures |more| < |text|
  {
    var tail;
    name, tail := Cut(text, '=');
    if '&' in tail {
      var rest;
      value, rest := Cut(tail, '&');
      more := "&" + rest;
    } else {
      value, more := tail, [];
      assert tail + [] == tail;
    }
  }

  // Parsing inverts printing for every list of readable pairs.
  lemma {:induction false} ParametersRoundTrip(pairs: seq<Pair>)
    requires Readable(pairs)
    ensures Pairs(Joined(pairs)) == Some(pairs)
  {
    if pairs != [] {
      var more := if |pairs| == 1 then [] else "&" + Joined(pairs[1..]);
      PairsStep(pairs[0].name, pairs[0].value, more);
      assert pairs == [pairs[0]] + pairs[1..];
      if |pairs| > 1 {
        assert more[1..] == Joined(pairs[1..]);
        ParametersRoundTrip(pairs[1..]);
      } else {
        assert pairs == [Pair(pairs[0].name, pairs[0].value)];
      }
    }
  }

  // The printed form of these pairs, perhaps with an ampersand at the end
  predicate Prints(text: string, pairs: seq<Pair>) {
    text == Joined(pairs) || (pairs != [] && text == Joined(pairs) + "&")
  }

  predicate Explains(pairs: seq<Pair>, text: string) {
    Readable(pairs) && Prints(text, pairs)
  }

  // And printing inverts parsing, up to an ampersand at the end: no text is lost or invented.
  lemma {:induction false} ParametersComplete(text: string)
    ensures Pairs(text).Some? ==> Explains(Pairs(text).value, text)
    decreases |text|
  {
    if '=' in text {
      var name, value, more := PrintedForm(text);
      PairsStep(name, value, more);
      if more == [] {
        JoinedOne(name, value);
      } else {
        assert more == "&" + more[1..];
        ParametersComplete(more[1..]);
        ExplainsCons(name, value, more[1..]);
      }
    } else {
      FindNone(text, '=');
    }
  }

  lemma ExplainsCons(name: string, value: string, rest: string)
    requires '=' !in name && '&' !in value
    requires Pairs(rest).Some? ==> Explains(Pairs(rest).value, rest)
    ensures var pairs := Prepend([Pair(name, value)], Pairs(rest));
            pairs.Some? ==> Explains(pairs.value, name + ("=" + (value + ("&" + rest))))
  {
    if Pairs(rest).Some? {
      JoinedCons(Pair(name, value), Pairs(rest).value, rest);
    }
  }

  lemma JoinedOne(name: string, value: string)
    ensures Joined([Pair(name, value)]) == name + ("=" + (value + []))
  {
  }

  lemma JoinedCons(pair: Pair, rest: seq<Pair>, text: string)
    requires Prints(text, rest)
    ensures Prints(pair.name + ("=" + (pair.value + ("&" + text))), [pair] + rest)
  {
    assert ([pair] + rest)[1..] == rest;
    if rest == [] {
      assert [pair] + rest == [pair];
      assert Joined([pair]) + "&" == pair.name + ("=" + (pair.value + ("&" + [])));
    } else if text == Joined(rest) + "&" {
      assert Joined([pair] + rest) == pair.name + ("=" + (pair.value + ("&" + Joined(rest))));
      AppendAmpersand(pair, Joined(rest));
    }
  }

  lemma AppendAmpersand(pair: Pair, printed: string)
    ensures pair.name + ("=" + (pair.value + ("&" + (printed + "&")))) ==
            pair.name + ("=" + (pair.value + ("&" + printed))) + "&"
  {
  }

  // What stands behind the last equals sign; the text itself when there is none.
  function AfterLastEquals(text: string): (tail: string)
    decreases |text|
  {
    var eq := Find(text, "=");
    if eq < 0 then text else AfterLastEquals(text[eq + 1..])
  }

  lemma AfterCut(before: string, after: string)
    requires '=' !in before
    ensures AfterLastEquals(before + ("=" + after)) == AfterLastEquals(after)
  {
    CutIs(before, '=', after);
  }

  lemma {:induction false} LastEqualsBehind(before: string, after: string)
    requires '=' in after
    ensures AfterLastEquals(before + after) == AfterLastEquals(after)
    decreases |before|
  {
    if '=' in before {
      var first, rest := Cut(before, '=');
      AppendAssoc("=", rest, after);
      AppendAssoc(first, "=" + rest, after);
      AfterCut(first, rest + after);
      LastEqualsBehind(rest, after);
    } else {
      var first, rest := Cut(after, '=');
      AppendAssoc(before, first, "=" + rest);
      AfterCut(before + first, rest);
      AfterCut(first, rest);
    }
  }

  lemma {:induction false} LastEqualsBefore(before: string, after: string)
    requires '=' !in after
    ensures AfterLastEquals(before + after) == AfterLastEquals(before) + after
    decreases |before|
  {
    if '=' in before {
      var first, rest := Cut(before, '=');
      AppendAssoc("=", rest, after);
      AppendAssoc(first, "=" + rest, after);
      AfterCut(first, rest + after);
      AfterCut(first, rest);
      LastEqualsBefore(rest, after);
    } else {
      FindNone(before, '=');
      FindNone(before + after, '=');
    }
  }

  lemma {:induction false} LastEqualsWithout(text: string, c: char)
    requires c !in text
    ensures c !in AfterLastEquals(text)
    decreases |text|
  {
    FindNone(text, '=');
    if '=' in text {
      var first, rest := Cut(text, '=');
      AfterCut(first, rest);
      LastEqualsWithout(rest, c);
    }
  }

  // A text with no equals sign, or with one that is missing behind the first ampersand after the last.
  predicate Dangling(text: string) {
    if '=' !in text then text != []
    else
      var tail := AfterLastEquals(text);
      0 <= Find(tail, "&") < |tail| - 1
  }

  // Up to the end of one pair nothing dangles.
  lemma LastPairNotDangling(name: string, value: string)
    requires '=' !in name && '&' !in value
    ensures !Dangling(name + ("=" + value))
  {
    AfterCut(name, value);
    LastEqualsWithout(value, '&');
    FindNone(AfterLastEquals(value), '&');
  }

  // And behind one pair it is the rest that dangles, if anything.
  lemma DanglingBehind(name: string, value: string, rest: string)
    requires '=' !in name && '&' !in value
    ensures Dangling(name + ("=" + (value + ("&" + rest)))) <==> Dangling(rest)
  {
    AppendAssoc(value, "&", rest);
    AfterCut(name, value + ("&" + rest));
    FindNone(rest, '=');
    if '=' in rest {
      LastEqualsBehind(value + "&", rest);
    } else {
      LastEqualsWithout(value, '&');
      LastEqualsBefore(value, "&" + rest);
      CutIs(AfterLastEquals(value), '&', rest);
    }
  }

  // The result is all pairs, except for dangling texts, where it is none.
  lemma {:induction false} NoneIffDangling(text: string)
    ensures Pairs(text).None? <==> Dangling(text)
    decreases |text|
  {
    FindNone(text, '=');
    if '=' in text {
      var name, value, more := PrintedForm(text);
      if more == [] {
        LastPairRead(name, value);
        assert value + more == value;
        LastPairNotDangling(name, value);
      } else {
        var rest := more[1..];
        assert more == "&" + rest;
        NoneIffDangling(rest);
        NextPairRead(name, value, rest);
        DanglingBehind(name, value, rest);
      }
    }
  }

  // ---------------------------------------------------------------- GET requests

  // A request target that the space and the NUL behind it delimit
  predicate Delimited(target: string) {
    ' ' !in target && NUL !in target
  }

  lemma TargetFound(verb: string, target: string, behind: seq<char>)
    requires NUL !in verb && Delimited(target)
    ensures var text := CStr(verb + (target + (" " + behind)));
            verb <= text &&
            var data := text[|verb|..];
            data == target + (" " + CStr(behind)) && Find(data, " ") == |target|
  {
    CStrSkip(verb, target + (" " + behind));
    CStrSkip(target, " " + behind);
    CStrSkip(" ", behind);
    CutIs(target, ' ', CStr(behind));
  }

  lemma MarkFound(path: string, params: string)
    requires '?' !in path
    ensures var searched := Target(path, params);
            if params == [] then Find(searched, "?") < 0
            else Find(searched, "?") == |path| && searched[..|path|] == path && searched[|path| + 1..] == params
  {
    if params == [] {
      FindNone(path, '?');
    } else {
      CutIs(path, '?', params);
    }
  }

  lemma TargetCons(first: char, path: string, params: string)
    ensures Target([first] + path, params) == [first] + Target(path, params)
  {
  }

  // What becomes of a target that is not empty
  lemma ParsedTarget(first: char, path: string, params: string, behind: string)
    requires '?' !in path && ' ' !in Target([first] + path, params)
    ensures ParseTarget(Target([first] + path, params) + (" " + behind)) ==
            Some(Got([first] + path, if params == [] then None else Some(Parameters(params))))
  {
    var searched := Target(path, params);
    TargetCons(first, path, params);
    var target := [first] + searched;
    CutIs(target, ' ', behind);
    MarkFound(path, params);
    var data := target + (" " + behind);
    assert data[1..|target|] == searched;
    if params != [] {
      assert data[..|path| + 1] == [first] + searched[..|path|];
    } else {
      assert data[..|target|] == [first] + path;
    }
  }

  lemma ParsedGet(first: char, path: string, params: string, behind: seq<char>)
    requires '?' !in path && Delimited(Target([first] + path, params))
    ensures ParseGet(CStr("GET " + (Target([first] + path, params) + (" " + behind)))) ==
            Some(Got([first] + path, if params == [] then None else Some(Parameters(params))))
  {
    TargetFound("GET ", Target([first] + path, params), behind);
    ParsedTarget(first, path, params, CStr(behind));
  }

  lemma JoinedEmpty(pairs: seq<Pair>)
    ensures Joined(pairs) == [] <==> pairs == []
  {
    if pairs != [] {
      assert '=' in Joined(pairs);
    }
  }

  // The server reads the path and the parameters that the client printed.
  lemma GetRoundTrip(host: string, port: nat, path: string, auth: string, pairs: seq<Pair>)
    requires path != [] && '?' !in path[1..] && Readable(pairs)
    requires Delimited(path) && Delimited(Joined(pairs))
    ensures ParseGet(CStr(GetRequest(host, port, path, auth, Joined(pairs)))) ==
            Some(Got(path, if pairs == [] then None else Some(pairs)))
  {
    assert path == [path[0]] + path[1..];
    ParametersRoundTrip(pairs);
    JoinedEmpty(pairs);
    ParsedGet(path[0], path[1..], Joined(pairs), "HTTP/1.1" + (Lines(HostLines(host, port, auth)) + BLANK));
  }

  lemma {:induction false} CStrClean(buffer: seq<char>)
    ensures NUL !in CStr(buffer)
  {
    if buffer != [] && buffer[0] != NUL {
      CStrClean(buffer[1..]);
    }
  }

  // No parsed path has a space, a NUL, or a question mark behind its first character.
  lemma ParsedPathClean(data: string)
    requires NUL !in data && ParseTarget(data).Some?
    ensures var path := ParseTarget(data).value.path;
            Delimited(path) && (path != [] ==> '?' !in path[1..])
  {
    FindNone(data, ' ');
    var before, behind := Cut(data, ' ');
    CutIs(before, ' ', behind);
    if before != [] {
      var searched := data[1..|before|];
      assert searched == before[1..];
      FindNone(searched, '?');
      if '?' in searched {
        var inner, after := Cut(searched, '?');
        assert before == [before[0]] + (inner + ("?" + after));
        assert data[..|inner| + 1] == [before[0]] + inner;
      }
    }
  }

  predicate Survives(parsed: Option<Got>, path: string) {
    parsed.Some? && parsed.value.path == path
  }

  // Exactly which paths come through.
  lemma PathSurvives(host: string, port: nat, path: string, auth: string, params: string)
    requires Delimited(params)
    ensures Survives(ParseGet(CStr(GetRequest(host, port, path, auth, params))), path) <==>
            && Delimited(path) && (path != [] ==> '?' !in path[1..])
            && (path == [] ==> params == [])
  {
    var behind := "HTTP/1.1" + (Lines(HostLines(host, port, auth)) + BLANK);
    var text := CStr(GetRequest(host, port, path, auth, params));
    CStrClean(GetRequest(host, port, path, auth, params));
    if ParseGet(text).Some? {
      ParsedPathClean(text[4..]);
    }
    if path == [] {
      EmptyPath(params, behind);
    } else if Delimited(path) && '?' !in path[1..] {
      assert path == [path[0]] + path[1..];
      ParsedGet(path[0], path[1..], params, behind);
    }
  }

  lemma PathReadEmpty(data: string)
    requires Find(data, " ") >= 0
    ensures ParseTarget(data).Some? && (ParseTarget(data).value.path == [] <==> Find(data, " ") == 0)
  {
  }

  // With parameters the question mark is taken for the first character of the path.
  lemma EmptyPath(params: string, behind: seq<char>)
    requires Delimited(params)
    ensures Survives(ParseGet(CStr("GET " + (Target([], params) + (" " + behind)))), []) <==> params == []
  {
    TargetFound("GET ", Target([], params), behind);
    PathReadEmpty(Target([], params) + (" " + CStr(behind)));
    assert Target([], params) == if params == [] then [] else "?" + params;
  }

  // ---------------------------------------------------------------- bodies

  predicate Clean(line: string) {
    line != [] && '\r' !in line
  }

  lemma AfterSkip(before: string, after: string)
    requires '\r' !in before
    ensures AfterBlank(before + after) == AfterBlank(after)
  {
    FindSkip(before, BLANK, after);
    var k := Find(after, BLANK) + 4;
    if k >= 4 {
      assert (before + after)[|before| + k..] == after[k..];
    }
  }

  lemma LineBreakSkipped(text: string)
    requires text != [] && text[0] != '\r'
    ensures AfterBlank(CRLF + text) == AfterBlank(text)
  {
    var all := CRLF + text;
    assert all[2] != BLANK[2];
    assert all[1..] == "\n" + text;
    FindSkip("\n", BLANK, text);
  }

  // The blank line is not found inside the header fields.
  lemma {:induction false} FieldsSkipped(lines: seq<string>, after: string)
    requires forall k :: 0 <= k < |lines| ==> Clean(lines[k])
    ensures AfterBlank(Lines(lines) + after) == AfterBlank(after)
  {
    if lines == [] {
      assert Lines(lines) + after == after;
    } else {
      var rest := Lines(lines[1..]) + after;
      AppendAssoc(lines[0], Lines(lines[1..]), after);
      AppendAssoc(CRLF, lines[0] + Lines(lines[1..]), after);
      FieldsSkipped(lines[1..], after);
      AfterSkip(lines[0], rest);
      LineBreakSkipped(lines[0] + rest);
    }
  }

  lemma FieldLinesClean(host: string, port: nat, auth: string, contentType: string, body: string)
    requires '\r' !in host && '\r' !in auth && '\r' !in contentType
    ensures var lines := HostLines(host, port, auth) + BodyLines(contentType, body);
            forall k :: 0 <= k < |lines| ==> Clean(lines[k])
  {
    DecimalDigits(port, '\r');
    DecimalDigits(|body|, '\r');
  }

  lemma EndingFound(contentType: string, body: string)
    ensures AfterBlank(Ending(contentType, body)) == Some(body) <==> contentType != []
  {
    if contentType != [] {
      assert BLANK <= BLANK + body;
    }
  }

  // The body is what follows the header, exactly when the printer has ended the header.
  lemma BodyFound(start: string, lines: seq<string>, contentType: string, body: string)
    requires '\r' !in start && forall k :: 0 <= k < |lines| ==> Clean(lines[k])
    ensures AfterBlank(start + (Lines(lines) + Ending(contentType, body))) == Some(body) <==> contentType != []
  {
    FieldsSkipped(lines, Ending(contentType, body));
    AfterSkip(start, Lines(lines) + Ending(contentType, body));
    EndingFound(contentType, body);
  }

  lemma ContentRead(target: string, behind: string, oldPath: string, oldContent: string)
    requires ' ' !in target
    ensures var r := ParseContent(target + (" " + behind), oldPath, oldContent);
            && r.1 == target && r.0 == AfterBlank(behind).Some?
            && r.2 == if r.0 then AfterBlank(behind).value else oldContent
  {
    CutIs(target, ' ', behind);
  }

  // The server reads the target with its query and the body, exactly when there is a content type.
  lemma BodyRoundTrip(t: RequestType, host: string, port: nat, path: string, auth: string, params: string, body: string,
                      contentType: string, dest: string, oldPath: string, oldContent: string)
    requires t.Put? || t.Post?
    requires Delimited(path) && Delimited(params)
    requires '\r' !in host && '\r' !in auth && '\r' !in contentType
    requires NUL !in BodyRequest(dest, t, host, port, path, auth, params, body, contentType)
    ensures var text := CStr(BodyRequest(dest, t, host, port, path, auth, params, body, contentType));
            var r := ParsePutPost(text, oldPath, oldContent);
            r.1 == Target(path, params) && (r.0 && r.2 == body <==> contentType != [])
  {
    var lines := HostLines(host, port, auth) + BodyLines(contentType, body);
    FieldLinesClean(host, port, auth, contentType, body);
    BodyFound("HTTP/1.1", lines, contentType, body);
    RequestRead(t, dest, Target(path, params), "HTTP/1.1" + (Lines(lines) + Ending(contentType, body)),
                oldPath, oldContent);
  }

  lemma RequestRead(t: RequestType, dest: string, target: string, behind: string, oldPath: string, oldContent: string)
    requires (t.Put? || t.Post?) && ' ' !in target
    requires NUL !in Verb(dest, t) + (target + (" " + behind))
    ensures var r := ParsePutPost(CStr(Verb(dest, t) + (target + (" " + behind))), oldPath, oldContent);
            && r.1 == target && r.0 == AfterBlank(behind).Some?
            && r.2 == if r.0 then AfterBlank(behind).value else oldContent
  {
    CStrWhole(Verb(dest, t) + (target + (" " + behind)));
    VerbRead(t, dest, target + (" " + behind), oldPath, oldContent);
    ContentRead(target, behind, oldPath, oldContent);
  }

  lemma VerbRead(t: RequestType, dest: string, data: string, oldPath: string, oldContent: string)
    requires t.Put? || t.Post?
    ensures ParsePutPost(Verb(dest, t) + data, oldPath, oldContent) == ParseContent(data, oldPath, oldContent)
  {
    var text := Verb(dest, t) + data;
    assert text[|Verb(dest, t)|..] == data;
    if t.Post? {
      assert text[1] == 'O';
    }
  }

  // A request of another kind, or one whose target does not end, is refused and nothing is assigned.
  lemma RequestRefused(text: string, oldPath: string, oldContent: string)
    ensures !(TypeOf(text) == Put || TypeOf(text) == Post) ==>
              ParsePutPost(text, oldPath, oldContent) == (false, oldPath, oldContent)
    ensures ' ' !in text ==> ParseContent(text, oldPath, oldContent) == (false, oldPath, oldContent)
    ensures TypeOf(text) != Get ==> ParseGet(text) == None
    ensures ' ' !in text ==> ParseTarget(text) == None
  {
    assert "GET " <= text ==> text[0] == 'G';
    assert "PUT " <= text || "POST " <= text ==> text[0] == 'P';
    FindNone(text, ' ');
  }

  lemma CStrWhole(text: string)
    requires NUL !in text
    ensures CStr(text) == text
  {
    CStrSkip(text, []);
    assert text + [] == text;
  }

  // ---------------------------------------------------------------- responses

  function Spaced(words: seq<string>): string
    requires words != []
  {
    if |words| == 1 then words[0] else words[0] + (" " + Spaced(words[1..]))
  }

  // The words of a line are what its spaces separate.
  lemma {:induction false} WordsOfSpaced(words: seq<string>)
    requires words != [] && forall k :: 0 <= k < |words| ==> ' ' !in words[k]
    ensures Words(Spaced(words)) == words
  {
    if |words| == 1 {
      FindNone(words[0], ' ');
    } else {
      CutIs(words[0], ' ', Spaced(words[1..]));
      WordsOfSpaced(words[1..]);
    }
  }

  // The status line is what comes before the first line break.
  lemma StatusFound(status: string, contentType: string, body: string)
    requires '\r' !in status && contentType != []
    ensures var text := Response(status, contentType, body);
            Find(text, CRLF) == |status| && text[..|status|] == status
  {
    var behind := Lines(BodyLines(contentType, body)) + Ending(contentType, body);
    assert CRLF <= behind;
    FindSkip(status, CRLF, behind);
  }

  // A client reads the status code, the second of at least three words, and the body, exactly when there is a content
  // type.
  lemma ResponseRoundTrip(words: seq<string>, contentType: string, body: string, oldCode: string, oldBody: string)
    requires words != [] && forall k :: 0 <= k < |words| ==> ' ' !in words[k]
    requires '\r' !in Spaced(words) && '\r' !in contentType
    requires NUL !in Response(Spaced(words), contentType, body)
    ensures var r := ParseResponse(CStr(Response(Spaced(words), contentType, body)), oldCode, oldBody);
            r.0 && |words| >= 2 && r.1 == words[1] && r.2 == body <==> contentType != [] && |words| >= 3
  {
    var status := Spaced(words);
    CStrWhole(Response(status, contentType, body));
    WordsOfSpaced(words);
    if contentType != [] {
      ResponseRead(status, contentType, body, oldCode, oldBody);
    } else {
      NoBodyRead(status, body, oldCode, oldBody);
    }
  }

  lemma ResponseRead(status: string, contentType: string, body: string, oldCode: string, oldBody: string)
    requires '\r' !in status && contentType != [] && '\r' !in contentType
    ensures ParseResponse(Response(status, contentType, body), oldCode, oldBody) ==
            if |Words(status)| < 3 then (false, oldCode, oldBody) else (true, Words(status)[1], body)
  {
    StatusFound(status, contentType, body);
    BodyLinesClean(contentType, body);
    BodyFound(status, BodyLines(contentType, body), contentType, body);
  }

  // Without a content type the body is not read.
  lemma NoBodyRead(status: string, body: string, oldCode: string, oldBody: string)
    requires '\r' !in status
    ensures var r := ParseResponse(Response(status, [], body), oldCode, oldBody); r.0 ==> r.2 != body
  {
    NoEmptyBody(status, body);
    BodyFound(status, [], [], body);
    assert BodyLines([], body) == [];
  }

  lemma BodyLinesClean(contentType: string, body: string)
    requires '\r' !in contentType
    ensures forall k :: 0 <= k < |BodyLines(contentType, body)| ==> Clean(BodyLines(contentType, body)[k])
  {
    DecimalDigits(|body|, '\r');
  }

  // Without a content type a line break can only come from the body.
  lemma NoEmptyBody(status: string, body: string)
    requires '\r' !in status
    ensures Response(status, [], body) == status + body
    ensures Find(status + body, CRLF) >= 0 ==> body != []
  {
    FindSkip(status, CRLF, body);
    assert Lines([]) + body == body;
  }

  // ---------------------------------------------------------------- the first word and the header fields

  // The method of a request is its first word, and the server takes the request for what it is.
  lemma TypeRoundTrip(t: RequestType, host: string, port: nat, path: string, auth: string, params: string,
                      body: string, contentType: string, dest: string)
    requires !t.NotSet?
    requires NUL !in BodyRequest(dest, t, host, port, path, auth, params, body, contentType)
    ensures var text := BodyRequest(dest, t, host, port, path, auth, params, body, contentType);
            && TypeOf(CStr(text)) == t
            && (t == Get ==> "GET " <= text) && (t == Put ==> "PUT " <= text) && (t == Post ==> "POST " <= text)
    ensures NUL !in GetRequest(host, port, path, auth, params) ==>
              TypeOf(CStr(GetRequest(host, port, path, auth, params))) == Get
  {
    var text := BodyRequest(dest, t, host, port, path, auth, params, body, contentType);
    CStrWhole(text);
    assert Verb(dest, t) <= text;
    assert t.Post? ==> text[1] == 'O';
    if NUL !in GetRequest(host, port, path, auth, params) { CStrWhole(GetRequest(host, port, path, auth, params)); }
  }

  // What follows the name of a header field, at its first occurrence at the front of a line
  function Field(text: string, name: string): Option<string> {
    var i := Find(text, CRLF + name);
    if i < 0 then None else Some(text[i + 2 + |name|..])
  }

  lemma FieldHere(name: string, after: string)
    ensures Field(CRLF + (name + after), name) == Some(after)
  {
    var text := CRLF + (name + after);
    AppendAssoc(CRLF, name, after);
    assert CRLF + name <= text;
    assert text[2 + |name|..] == after;
  }

  lemma FieldBehind(before: string, name: string, after: string)
    requires '\r' !in before
    ensures Field(before + after, name) == Field(after, name)
  {
    FindSkip(before, CRLF + name, after);
    var i := Find(after, CRLF + name);
    if i >= 0 {
      assert (before + after)[|before| + i + 2 + |name|..] == after[i + 2 + |name|..];
    }
  }

  // A line that differs from the name early on is another field.
  lemma OtherField(line: string, name: string, after: string, k: nat)
    requires '\r' !in line && k < |line| && k < |name| && line[k] != name[k]
    ensures Field(CRLF + (line + after), name) == Field(after, name)
  {
    var text := CRLF + (line + after);
    assert text[2 + k] == line[k] && (CRLF + name)[2 + k] == name[k];
    assert !(CRLF + name <= text);
    assert text[1..] == ("\n" + line) + after;
    FieldBehind("\n" + line, name, after);
    var i := Find(text[1..], CRLF + name);
    if i >= 0 {
      assert text[i + 1 + 2 + |name|..] == text[1..][i + 2 + |name|..];
    }
  }

  lemma LinesCons(line: string, rest: seq<string>, after: string)
    ensures Lines([line] + rest) + after == CRLF + (line + (Lines(rest) + after))
  {
    assert ([line] + rest)[1..] == rest;
    AppendAssoc(line, Lines(rest), after);
    AppendAssoc(CRLF, line + Lines(rest), after);
  }

  // A field whose line comes first, and another field
  lemma FirstField(name: string, value: string, rest: seq<string>, after: string)
    ensures Field(Lines([name + value] + rest) + after, name) == Some(value + (Lines(rest) + after))
  {
    LinesCons(name + value, rest, after);
    AppendAssoc(name, value, Lines(rest) + after);
    FieldHere(name, value + (Lines(rest) + after));
  }

  lemma LaterField(other: string, value: string, rest: seq<string>, after: string, name: string, k: nat)
    requires '\r' !in other + value && k < |other| && k < |name| && other[k] != name[k]
    ensures Field(Lines([other + value] + rest) + after, name) == Field(Lines(rest) + after, name)
  {
    LinesCons(other + value, rest, after);
    OtherField(other + value, name, Lines(rest) + after, k);
  }

  lemma LastField(name: string, value: string, after: string)
    ensures Lines([name + value]) + after == CRLF + (name + (value + after))
    ensures Field(Lines([name + value]) + after, name) == Some(value + after)
  {
    assert [name + value] + [] == [name + value];
    assert Lines([]) + after == after;
    LinesCons(name + value, [], after);
    AppendAssoc(name, value, after);
    FieldHere(name, value + after);
  }

  lemma TwoFields(a: string, first: string, b: string, second: string, after: string, k: nat)
    requires '\r' !in a + first && k < |a| && k < |b| && a[k] != b[k]
    ensures var text := Lines([a + first] + [b + second]) + after;
            Field(text, a) == Some(first + (CRLF + (b + (second + after)))) && Field(text, b) == Some(second + after)
  {
    FirstField(a, first, [b + second], after);
    LaterField(a, first, [b + second], after, b, k);
    LastField(b, second, after);
  }

  lemma TypeLine(contentType: string)
    requires '\r' !in contentType
    ensures '\r' !in TYPE + contentType
    ensures TYPE[8] == 'T' && LENGTH[8] == 'L'
  {
  }

  // The body lines give the type of the body and the number of its characters.
  lemma BodyFields(contentType: string, body: string, after: string)
    requires contentType != [] && '\r' !in contentType
    ensures var text := Lines(BodyLines(contentType, body)) + after;
            && Field(text, LENGTH) == Some(Decimal(|body|) + after)
            && Field(text, TYPE) == Some(contentType + (CRLF + (LENGTH + (Decimal(|body|) + after))))
  {
    TypeLine(contentType);
    TwoFields(TYPE, contentType, LENGTH, Decimal(|body|), after, 8);
  }

  // A printed response tells how many characters follow its blank line, and of what type.
  lemma ResponseFields(status: string, contentType: string, body: string)
    requires '\r' !in status && contentType != [] && '\r' !in contentType
    ensures var text := Response(status, contentType, body);
            && AfterBlank(text) == Some(body)
            && Field(text, LENGTH) == Some(Decimal(|body|) + (BLANK + body))
            && Field(text, TYPE) == Some(contentType + (CRLF + (LENGTH + (Decimal(|body|) + (BLANK + body)))))
  {
    BodyFields(contentType, body, BLANK + body);
    var text := Lines(BodyLines(contentType, body)) + (BLANK + body);
    FieldBehind(status, LENGTH, text);
    FieldBehind(status, TYPE, text);
    BodyLinesClean(contentType, body);
    BodyFound(status, BodyLines(contentType, body), contentType, body);
  }

  // The host line names host and port, and there is an authorization line exactly if there is something to tell.
  lemma HostFields(host: string, port: nat, auth: string, rest: seq<string>, after: string)
    requires '\r' !in host && '\r' !in auth
    ensures var text := Lines(HostLines(host, port, auth) + rest) + after;
            && Field(text, HOST).Some? && host + (":" + Decimal(port)) <= Field(text, HOST).value
            && Field(text, AUTHORIZATION) ==
               if auth == [] then Field(Lines(rest) + after, AUTHORIZATION) else Some(auth + (Lines(rest) + after))
  {
    var address := host + (":" + Decimal(port));
    var others := (if auth == [] then [] else [AUTHORIZATION + auth]) + rest;
    DecimalDigits(port, '\r');
    assert HostLines(host, port, auth) + rest == [HOST + address] + others;
    FirstField(HOST, address, others, after);
    LaterField(HOST, address, others, after, AUTHORIZATION, 0);
    if auth == [] {
      assert others == rest;
    } else {
      FirstField(AUTHORIZATION, auth, rest, after);
    }
  }

  // And so do the lines of a request with a body.
  lemma RequestFields(host: string, port: nat, auth: string, contentType: string, body: string, after: string)
    requires '\r' !in host && '\r' !in auth && contentType != [] && '\r' !in contentType
    ensures var text := Lines(HostLines(host, port, auth) + BodyLines(contentType, body)) + after;
            && Field(text, LENGTH) == Some(Decimal(|body|) + after)
            && Field(text, TYPE) == Some(contentType + (CRLF + (LENGTH + (Decimal(|body|) + after))))
  {
    var lines := BodyLines(contentType, body);
    HostSkipped(host, port, auth, lines, after, LENGTH);
    HostSkipped(host, port, auth, lines, after, TYPE);
    BodyFields(contentType, body, after);
  }

  lemma HostSkipped(host: string, port: nat, auth: string, rest: seq<string>, after: string, name: string)
    requires '\r' !in host && '\r' !in auth && name != [] && name[0] == 'C'
    ensures Field(Lines(HostLines(host, port, auth) + rest) + after, name) == Field(Lines(rest) + after, name)
  {
    var address := host + (":" + Decimal(port));
    var others := (if auth == [] then [] else [AUTHORIZATION + auth]) + rest;
    DecimalDigits(port, '\r');
    assert HostLines(host, port, auth) + rest == [HOST + address] + others;
    LaterField(HOST, address, others, after, name, 0);
    if auth == [] {
      assert others == rest;
    } else {
      LaterField(AUTHORIZATION, auth, rest, after, name, 0);
    }
  }
}
