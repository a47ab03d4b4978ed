/** The parsers of com/HTTP/httpparser.cpp as they run: over a buffer whose separators they overwrite with NULs. What
    they return is what module Http says of the text, and what they leave behind in the buffer is stated too. */
module HttpParser {
  import opened Options
  import opened Seqs
  import opened CStrings
  import opened Http

  // ---------------------------------------------------------------- C strings in a buffer

  predicate Terminated(s: seq<char>) {
    s != [] && s[|s| - 1] == NUL
  }

  // The string at an offset
  function At(s: seq<char>, i: nat): (text: string)
    requires i <= |s|
    ensures i + |text| <= |s|
    decreases |s| - i
  {
    if i == |s| || s[i] == NUL then [] else [s[i]] + At(s, i + 1)
  }

  lemma {:induction false} AtIsCStr(s: seq<char>, i: nat)
    requires i <= |s|
    ensures At(s, i) == CStr(s[i..])
    decreases |s| - i
  {
    if i < |s| && s[i] != NUL {
      AtIsCStr(s, i + 1);
      assert s[i..][1..] == s[i + 1..];
    }
  }

  lemma {:induction false} AtEnd(s: seq<char>, i: nat)
    requires Terminated(s) && i < |s|
    ensures i + |At(s, i)| < |s|
    decreases |s| - i
  {
    if s[i] != NUL {
      AtEnd(s, i + 1);
    }
  }

  lemma {:induction false} AtMove(s: seq<char>, i: nat, k: nat)
    requires i <= |s| && k <= |At(s, i)|
    ensures At(s, i + k) == At(s, i)[k..]
    decreases k
  {
    if k > 0 {
      AtMove(s, i + 1, k - 1);
    }
  }

  lemma {:induction false} AtCut(s: seq<char>, i: nat, k: nat)
    requires i <= |s| && k <= |At(s, i)| && i + k < |s|
    ensures At(s[i + k := NUL], i) == At(s, i)[..k]
    decreases k
  {
    if k > 0 {
      AtCut(s, i + 1, k - 1);
    }
  }

  // A mark is not the NUL at the end of the buffer.
  lemma BehindMark(s: seq<char>, i: nat, c: char)
    requires Terminated(s) && i < |s|
    ensures Mark(s, i, c) + 1 < |s|
  {
    AtEnd(s, i);
  }

  // What is written behind the NUL of a string, or before the string, does not change it.
  lemma {:induction false} AtAgree(s: seq<char>, t: seq<char>, i: nat)
    requires i <= |s| == |t|
    requires forall k :: i <= k <= i + |At(s, i)| && k < |s| ==> s[k] == t[k]
    ensures At(s, i) == At(t, i)
    decreases |s| - i
  {
    if i < |s| && s[i] != NUL {
      AtAgree(s, t, i + 1);
    }
  }

  // Where a character is found
  function Mark(s: seq<char>, i: nat, c: char): (p: int)
    requires i <= |s|
    ensures p == -1 || i <= p < |s|
  {
    var found := Find(At(s, i), [c]);
    if found < 0 then -1 else i + found
  }

  // Overwriting the character that was found with a NUL leaves a string on either side.
  lemma CutAt(s: seq<char>, i: nat, c: char)
    requires Terminated(s) && i < |s| && Mark(s, i, c) >= 0
    ensures var text, found := At(s, i), Find(At(s, i), [c]);
            var cut := s[i + found := NUL];
            && i + found + 1 < |s| && Terminated(cut)
            && At(cut, i) == text[..found] && At(cut, i + found + 1) == text[found + 1..]
  {
    var found := Find(At(s, i), [c]);
    AtEnd(s, i);
    AtCut(s, i, found);
    AtMove(s, i, found + 1);
    AtAgree(s, s[i + found := NUL], i + found + 1);
  }

  // strstr for one character, which a NUL then overwrites
  function Punched(s: seq<char>, i: nat, c: char): (t: seq<char>)
    requires i <= |s|
    ensures |t| == |s|
  {
    var p := Mark(s, i, c);
    if p < 0 then s else s[p := NUL]
  }

  // The string at the offset is searched for the character, and its first occurrence becomes a NUL.
  method Punch(data: array<char>, i: nat, c: char) returns (p: int)
    requires i <= data.Length
    modifies data
    ensures p == -1 <==> c !in At(old(data[..]), i)
    ensures p != -1 ==> IsFirst(old(data[..]), i, c, p) && data[..] == old(data[..])[p := NUL]
    ensures p == -1 ==> data[..] == old(data[..])
    ensures p == Mark(old(data[..]), i, c) && data[..] == Punched(old(data[..]), i, c)
  {
    MarkIsFirst(data[..], i, c);
    p := Mark(data[..], i, c);
    if p >= 0 {
      data[p] := NUL;
    }
  }

  // The first occurrence of a character in the string at an offset
  predicate IsFirst(s: seq<char>, i: nat, c: char, p: int)
    requires i <= |s|
  {
    var text := At(s, i);
    i <= p < i + |text| && s[p] == c && c !in text[..p - i]
  }

  lemma FindIsFirst(text: string, c: char)
    ensures var found := Find(text, [c]);
            && (found == -1 <==> c !in text)
            && (found != -1 ==> 0 <= found < |text| && text[found] == c && c !in text[..found])
  {
    FindNone(text, c);
    if c in text {
      var before, after := Cut(text, c);
      PrefixOf(text, before, c, after);
    }
  }

  lemma PrefixOf(text: string, before: string, c: char, after: string)
    requires text == before + ([c] + after)
    ensures |before| < |text| && text[|before|] == c && text[..|before|] == before
  {
  }

  lemma {:induction false} AtIs(s: seq<char>, i: nat, k: nat)
    requires i <= |s| && k < |At(s, i)|
    ensures s[i + k] == At(s, i)[k]
    decreases k
  {
    if k > 0 {
      AtIs(s, i + 1, k - 1);
    }
  }

  lemma MarkIsFirst(s: seq<char>, i: nat, c: char)
    requires i <= |s|
    ensures Mark(s, i, c) == -1 <==> c !in At(s, i)
    ensures Mark(s, i, c) != -1 ==> IsFirst(s, i, c, Mark(s, i, c))
  {
    FindIsFirst(At(s, i), c);
    if Mark(s, i, c) != -1 {
      AtIs(s, i, Find(At(s, i), [c]));
    }
  }

  // From an offset on, separators may have become NULs; nothing else has changed.
  ghost predicate Kept(was: seq<char>, now: seq<char>, i: nat, separators: string) {
    && |now| == |was| && Terminated(now)
    && forall k :: 0 <= k < |was| ==> now[k] == was[k] || (k >= i && now[k] == NUL && was[k] in separators)
  }

  lemma KeptTwice(a: seq<char>, b: seq<char>, c: seq<char>, i: nat, j: nat, separators: string)
    requires i <= j && Kept(a, b, i, separators) && Kept(b, c, j, separators)
    ensures Kept(a, c, i, separators)
  {
  }

  lemma PunchedKept(s: seq<char>, i: nat, c: char, separators: string)
    requires Terminated(s) && i < |s| && c in separators
    ensures Kept(s, Punched(s, i, c), i, separators)
  {
    MarkIsFirst(s, i, c);
    BehindMark(s, i, c);
  }

  // ---------------------------------------------------------------- parameters

  function Names(pairs: seq<Pair>): seq<string> {
    if pairs == [] then [] else [pairs[0].name] + Names(pairs[1..])
  }

  function Values(pairs: seq<Pair>): seq<string> {
    if pairs == [] then [] else [pairs[0].value] + Values(pairs[1..])
  }

  lemma {:induction false} NamesAppend(pairs: seq<Pair>, p: Pair)
    ensures Names(pairs + [p]) == Names(pairs) + [p.name] && Values(pairs + [p]) == Values(pairs) + [p.value]
  {
    AppendTail(pairs, [p]);
    if pairs != [] {
      NamesAppend(pairs[1..], p);
    }
  }

  // The pairs of a text of which some are read: those, and the pairs of what is left unless they are the last.
  ghost function AllOf(read: seq<Pair>, last: bool, left: string): Option<seq<Pair>> {
    if last then Some(read) else Prepend(read, Pairs(left))
  }

  lemma NothingRead(text: string)
    ensures AllOf([], false, text) == Pairs(text)
  {
    if Pairs(text).Some? {
      assert [] + Pairs(text).value == Pairs(text).value;
    }
  }

  // What one pass of the loop takes off a text: a name, its value, and what is left behind an ampersand.
  datatype Pass = Pass(last: bool, name: string, value: string, rest: string)

  function FirstPass(left: string): Pass
    requires Find(left, "=") >= 0
  {
    var eq := Find(left, "=");
    var tail := left[eq + 1..];
    var amp := Find(tail, "&");
    if amp < 0 then Pass(true, left[..eq], tail, []) else Pass(false, left[..eq], tail[..amp], tail[amp + 1..])
  }

  lemma ReadOne(read: seq<Pair>, left: string)
    requires Find(left, "=") >= 0
    ensures var pass := FirstPass(left);
            AllOf(read + [Pair(pass.name, pass.value)], pass.last, pass.rest) == AllOf(read, false, left)
  {
    var pass := FirstPass(left);
    if !pass.last && Pairs(pass.rest).Some? {
      AppendAssoc(read, [Pair(pass.name, pass.value)], Pairs(pass.rest).value);
    }
  }

  lemma ReadNothing(read: seq<Pair>, left: string)
    ensures left != [] && Find(left, "=") < 0 ==> AllOf(read, false, left) == None
    ensures left == [] ==> AllOf(read, false, left) == Some(read)
  {
    if left == [] {
      assert read + [] == read;
    }
  }

  // The name has been cut off at its equals sign.
  lemma NameCut(s: seq<char>, i: nat)
    requires Terminated(s) && i < |s| && Mark(s, i, '=') >= 0
    ensures var left, eq, cut := At(s, i), Mark(s, i, '='), Punched(s, i, '=');
            && Terminated(cut) && eq + 1 < |s| && i + |At(cut, i)| == eq
            && At(cut, i) == left[..Find(left, "=")] && At(cut, eq + 1) == left[Find(left, "=") + 1..]
  {
    CutAt(s, i, '=');
  }

  // The value behind the name is cut off at its ampersand.
  lemma ValueCut(s: seq<char>, i: nat, v: nat)
    requires Terminated(s) && i < v < |s| && i + |At(s, i)| < v && Mark(s, v, '&') >= 0
    ensures var tail, amp, cut := At(s, v), Mark(s, v, '&'), Punched(s, v, '&');
            && amp + 1 < |s| && At(cut, i) == At(s, i)
            && At(cut, v) == tail[..Find(tail, "&")] && At(cut, amp + 1) == tail[Find(tail, "&") + 1..]
  {
    CutAt(s, v, '&');
    AtAgree(s, s[Mark(s, v, '&') := NUL], i);
  }

  // What one pass of the loop does: a name, its value, where the next name starts unless the value is the last, and
  // the buffer with the two cuts. Without an equals sign there is nothing to read.
  datatype Turn = Turn(found: bool, last: bool, name: string, value: string, next: nat, buffer: seq<char>)

  function TurnAt(s: seq<char>, i: nat): Turn
    requires Terminated(s) && i < |s|
  {
    var eq := Mark(s, i, '=');
    if eq < 0 then Turn(false, true, [], [], i, s)
    else
      var amp := Mark(Punched(s, i, '='), eq + 1, '&');
      var cut := Punched(Punched(s, i, '='), eq + 1, '&');
      Turn(true, amp < 0, At(cut, i), At(cut, eq + 1), if amp < 0 then i else amp + 1, cut)
  }

  lemma TurnBounds(s: seq<char>, i: nat)
    requires Terminated(s) && i < |s|
    ensures var turn := TurnAt(s, i);
            i <= turn.next < |s| == |turn.buffer| && (turn.last || i < turn.next)
  {
    if Mark(s, i, '=') >= 0 {
      NameCut(s, i);
      BehindMark(Punched(s, i, '='), Mark(s, i, '=') + 1, '&');
    }
  }

  lemma TurnReads(s: seq<char>, i: nat)
    requires Terminated(s) && i < |s| && Mark(s, i, '=') >= 0
    ensures var turn := TurnAt(s, i);
            Find(At(s, i), "=") >= 0 && turn.next <= |turn.buffer| &&
            FirstPass(At(s, i)) ==
            Pass(turn.last, turn.name, turn.value, if turn.last then [] else At(turn.buffer, turn.next))
  {
    var cut, v := Punched(s, i, '='), Mark(s, i, '=') + 1;
    var left := At(s, i);
    NameCut(s, i);
    var name, tail := At(cut, i), At(cut, v);
    assert name == left[..Find(left, "=")] && tail == left[Find(left, "=") + 1..];
    if Mark(cut, v, '&') >= 0 {
      ValueCut(cut, i, v);
      assert FirstPass(left) == Pass(false, name, tail[..Find(tail, "&")], tail[Find(tail, "&") + 1..]);
    } else {
      assert FirstPass(left) == Pass(true, name, tail, []);
    }
  }

  lemma TurnKeeps(s: seq<char>, i: nat)
    requires Terminated(s) && i < |s|
    ensures Kept(s, TurnAt(s, i).buffer, i, "=&")
  {
    var eq := Mark(s, i, '=');
    if eq >= 0 {
      var cut := Punched(s, i, '=');
      PunchedKept(s, i, '=', "=&");
      BehindMark(s, i, '=');
      PunchedKept(cut, eq + 1, '&', "=&");
      KeptTwice(s, cut, Punched(cut, eq + 1, '&'), i, eq + 1, "=&");
    }
  }

  method ParsePair(data: array<char>, start: nat)
    returns (found: bool, last: bool, name: string, value: string, next: nat)
    requires Terminated(data[..]) && start < data.Length
    modifies data
    ensures Turn(found, last, name, value, next, data[..]) == TurnAt(old(data[..]), start)
  {
    ghost var s := data[..];
    found, last, name, value, next := false, true, [], [], start;
    var eq := Punch(data, start, '=');
    if eq >= 0 {
      BehindMark(s, start, '=');
      var amp := Punch(data, eq + 1, '&');
      name, value := At(data[..], start), At(data[..], eq + 1);
      found, last := true, amp < 0;
      if !last {
        next := amp + 1;
      }
    }
  }

  // parseGETParameters
  method ParseGETParameters(data: array<char>, start: nat)
    returns (names: seq<string>, values: seq<string>, count: nat)
    requires Terminated(data[..]) && start < data.Length
    modifies data
    ensures Kept(old(data[..]), data[..], start, "=&")
    ensures var pairs := Parameters(At(old(data[..]), start));
            names == Names(pairs) && values == Values(pairs) && count == |pairs|
  {
    ghost var was := data[..];
    ghost var now, pairs, left := was, [], At(was, start);
    names, values, count := [], [], 0;
    NothingRead(left);
    var startOfName, endOfParameters := start, false;
    while data[startOfName] != NUL && !endOfParameters
      invariant data[..] == now && start <= startOfName < data.Length && Kept(was, now, start, "=&")
      invariant !endOfParameters ==> left == At(now, startOfName)
      invariant AllOf(pairs, endOfParameters, left) == Pairs(At(was, start))
      invariant names == Names(pairs) && values == Values(pairs) && count == |pairs|
      decreases data.Length - startOfName, !endOfParameters
    {
      var found, last, name, value, next := ParsePair(data, startOfName);
      TurnBounds(now, startOfName);
      TurnKeeps(now, startOfName);
      KeptTwice(was, now, data[..], start, startOfName, "=&");
      ghost var before := now;
      now := data[..];
      ReadNothing(pairs, left);
      if !found {
        pairs := [];
        names, values, count := [], [], 0;
        break;
      }
      TurnReads(before, startOfName);
      ghost var rest := if last then [] else At(now, next);
      ReadOne(pairs, left);
      NamesAppend(pairs, Pair(name, value));
      pairs, left := pairs + [Pair(name, value)], rest;
      names, values, count := names + [name], values + [value], count + 1;
      startOfName, endOfParameters := next, last;
    }
    ReadNothing(pairs, left);
  }

  // ---------------------------------------------------------------- requests and responses

  lemma Behind(s: seq<char>, verb: string)
    requires Terminated(s) && verb <= CStr(s)
    ensures |verb| < |s| && At(s, |verb|) == CStr(s)[|verb|..]
  {
    assert s[0..] == s;
    AtIsCStr(s, 0);
    AtEnd(s, 0);
    AtMove(s, 0, |verb|);
  }

  // The target is cut off at the space behind it.
  lemma TargetCut(s: seq<char>, i: nat)
    requires Terminated(s) && i < |s| && Mark(s, i, ' ') >= 0
    ensures var text, end, cut := At(s, i), Find(At(s, i), " "), Punched(s, i, ' ');
            && end >= 0 && Mark(s, i, ' ') + 1 < |s| && Terminated(cut)
            && At(cut, i) == text[..end] && At(cut, Mark(s, i, ' ') + 1) == text[end + 1..]
            && i + 1 < |s| && At(cut, i + 1) == Searched(text)
  {
    var end, cut := Find(At(s, i), " "), Punched(s, i, ' ');
    CutAt(s, i, ' ');
    if end > 0 {
      AtMove(cut, i, 1);
      assert At(s, i)[..end][1..] == At(s, i)[1..end];
    }
  }

  // The path is cut off at the question mark behind its first character; what is written behind it does not matter.
  lemma PathCut(s: seq<char>, i: nat, now: seq<char>)
    requires Terminated(s) && i + 1 < |s| && Mark(s, i + 1, '?') >= 0
    requires Kept(Punched(s, i + 1, '?'), now, Mark(s, i + 1, '?') + 1, "=&")
    ensures var cut, mark := Punched(s, i + 1, '?'), Mark(s, i + 1, '?');
            && mark + 1 < |s| && At(cut, mark + 1) == At(s, i + 1)[Find(At(s, i + 1), "?") + 1..]
            && At(now, i) == if s[i] == NUL then [] else [s[i]] + At(s, i + 1)[..Find(At(s, i + 1), "?")]
  {
    CutAt(s, i + 1, '?');
    AtAgree(Punched(s, i + 1, '?'), now, i + 1);
  }

  lemma NoTarget(s: seq<char>, i: nat)
    requires i <= |s| && Mark(s, i, ' ') < 0
    ensures ParseTarget(At(s, i)) == None
  {
  }

  lemma PlainTarget(s: seq<char>, i: nat)
    requires Terminated(s) && i < |s| && Mark(s, i, ' ') >= 0
    ensures var cut := Punched(s, i, ' ');
            i + 1 < |s| && Terminated(cut) &&
            (Mark(cut, i + 1, '?') < 0 ==> ParseTarget(At(s, i)) == Some(Got(At(cut, i), None)))
  {
    TargetCut(s, i);
  }

  // The path in front of the question mark; it is empty when the target is.
  lemma QueryPath(s: seq<char>, i: nat, now: seq<char>)
    requires Terminated(s) && i + 1 < |s| && Mark(s, i, ' ') >= 0
    requires Mark(Punched(s, i, ' '), i + 1, '?') >= 0
    requires Kept(Punched(Punched(s, i, ' '), i + 1, '?'), now, Mark(Punched(s, i, ' '), i + 1, '?') + 1, "=&")
    ensures var text, end := At(s, i), Find(At(s, i), " ");
            var searched := At(Punched(s, i, ' '), i + 1);
            0 <= end && 0 <= Find(searched, "?") < |text| && At(now, i) == Queried(text, Find(searched, "?"))
  {
    var cut, text, end := Punched(s, i, ' '), At(s, i), Find(At(s, i), " ");
    TargetCut(s, i);
    PathCut(cut, i, now);
    if end > 0 {
      assert cut[i] == s[i] == text[0] != NUL;
      FirstAndRest(text, end, Find(At(cut, i + 1), "?"));
    }
  }

  lemma FirstAndRest(text: string, end: nat, mark: nat)
    requires 0 < end <= |text| && mark < end
    ensures [text[0]] + text[1..end][..mark] == text[..mark + 1]
  {
  }

  lemma QueryTarget(s: seq<char>, i: nat, now: seq<char>, path: string, query: string)
    requires Terminated(s) && i + 1 < |s| && Mark(s, i, ' ') >= 0
    requires Mark(Punched(s, i, ' '), i + 1, '?') >= 0
    requires Kept(Punched(Punched(s, i, ' '), i + 1, '?'), now, Mark(Punched(s, i, ' '), i + 1, '?') + 1, "=&")
    requires path == At(now, i)
    requires query == At(Punched(Punched(s, i, ' '), i + 1, '?'), Mark(Punched(s, i, ' '), i + 1, '?') + 1)
    ensures ParseTarget(At(s, i)) == Some(Got(path, Some(Parameters(query))))
  {
    var cut := Punched(s, i, ' ');
    QueryPath(s, i, now);
    TargetCut(s, i);
    CutAt(cut, i + 1, '?');
    TargetWithQuery(At(s, i), At(cut, i + 1), path, query);
  }

  lemma TargetWithQuery(data: string, searched: string, path: string, query: string)
    requires Find(data, " ") >= 0 && searched == Searched(data)
    requires var mark := Find(searched, "?");
             0 <= mark < |data| && query == searched[mark + 1..] && path == Queried(data, mark)
    ensures ParseTarget(data) == Some(Got(path, Some(Parameters(query))))
  {
  }

  // The marks of the target, and then those of the query, may have become NULs.
  lemma TargetKept(s: seq<char>, i: nat)
    requires Terminated(s) && i + 1 < |s|
    ensures var cut := Punched(s, i, ' ');
            Kept(s, cut, i, " ?=&") && Kept(s, Punched(cut, i + 1, '?'), i, " ?=&")
  {
    var cut := Punched(s, i, ' ');
    PunchedKept(s, i, ' ', " ?=&");
    PunchedKept(cut, i + 1, '?', " ?=&");
    KeptTwice(s, cut, Punched(cut, i + 1, '?'), i, i + 1, " ?=&");
  }

  lemma QueryKept(s: seq<char>, cut: seq<char>, now: seq<char>, i: nat, j: nat)
    requires i <= j && Kept(s, cut, i, " ?=&") && Kept(cut, now, j, "=&")
    ensures Kept(s, now, i, " ?=&")
  {
    assert Kept(cut, now, j, " ?=&");
    KeptTwice(s, cut, now, i, j, " ?=&");
  }

  // What the caller's string and vectors hold then
  function Results(got: Option<Got>, oldPath: string, oldNames: seq<string>, oldValues: seq<string>):
    (string, seq<string>, seq<string>)
  {
    match got
    case None => (oldPath, oldNames, oldValues)
    case Some(Got(path, None)) => (path, oldNames, oldValues)
    case Some(Got(path, Some(pairs))) => (path, Names(pairs), Values(pairs))
  }

  // parseGetRequest; without a question mark the vectors stay as they are.
  method ParseGetRequest(data: array<char>, oldPath: string, oldNames: seq<string>, oldValues: seq<string>)
    returns (ok: bool, path: string, names: seq<string>, values: seq<string>)
    requires Terminated(data[..])
    modifies data
    ensures Kept(old(data[..]), data[..], 0, " ?=&")
    ensures ok == ParseGet(CStr(old(data[..]))).Some?
    ensures (path, names, values) == Results(ParseGet(CStr(old(data[..]))), oldPath, oldNames, oldValues)
  {
    ok, path, names, values := false, oldPath, oldNames, oldValues;
    ghost var s := data[..];
    if "GET " <= CStr(data[..]) {
      Behind(s, "GET ");
      var endOfPath := Punch(data, 4, ' ');
      if endOfPath < 0 {
        NoTarget(s, 4);
      } else {
        ghost var cut := data[..];
        PlainTarget(s, 4);
        TargetKept(s, 4);
        ok := true;
        var startOfParameters := Punch(data, 5, '?');
        if startOfParameters >= 0 {
          ghost var two := data[..];
          BehindMark(cut, 5, '?');
          var count;
          names, values, count := ParseGETParameters(data, startOfParameters + 1);
          QueryKept(s, two, data[..], 4, startOfParameters + 1);
          QueryTarget(s, 4, data[..], At(data[..], 4), At(Punched(cut, 5, '?'), startOfParameters + 1));
        }
        path := At(data[..], 4);
      }
    }
  }

  lemma ContentCut(s: seq<char>, i: nat, oldPath: string, oldContent: string)
    requires Terminated(s) && i < |s|
    ensures var end, cut := Mark(s, i, ' '), Punched(s, i, ' ');
            Http.ParseContent(At(s, i), oldPath, oldContent) ==
            if end < 0 then (false, oldPath, oldContent)
            else
              match AfterBlank(At(cut, end + 1))
              case None => (false, At(cut, i), oldContent)
              case Some(found) => (true, At(cut, i), found)
  {
    if Mark(s, i, ' ') >= 0 {
      TargetCut(s, i);
    }
  }

  // parsePutPostRequest behind the method
  method ParseContent(data: array<char>, start: nat, oldPath: string, oldContent: string)
    returns (ok: bool, path: string, content: string)
    requires Terminated(data[..]) && start < data.Length
    modifies data
    ensures Kept(old(data[..]), data[..], start, " ")
    ensures (ok, path, content) == Http.ParseContent(At(old(data[..]), start), oldPath, oldContent)
  {
    ok, path, content := false, oldPath, oldContent;
    ghost var s := data[..];
    ContentCut(s, start, oldPath, oldContent);
    PunchedKept(s, start, ' ', " ");
    BehindMark(s, start, ' ');
    var endOfPath := Punch(data, start, ' ');
    if endOfPath >= 0 {
      path := At(data[..], start);
      var behind := At(data[..], endOfPath + 1);
      var blank := Find(behind, BLANK);
      if blank >= 0 {
        content := behind[blank + 4..];
        ok := true;
      }
    }
  }

  // parsePutPostRequest
  method ParsePutPostRequest(data: array<char>, oldPath: string, oldContent: string)
    returns (ok: bool, path: string, content: string)
    requires Terminated(data[..])
    modifies data
    ensures Kept(old(data[..]), data[..], 0, " ")
    ensures (ok, path, content) == ParsePutPost(CStr(old(data[..])), oldPath, oldContent)
  {
    if "PUT " <= CStr(data[..]) {
      Behind(data[..], "PUT ");
      ok, path, content := ParseContent(data, 4, oldPath, oldContent);
    } else if "POST " <= CStr(data[..]) {
      Behind(data[..], "POST ");
      ok, path, content := ParseContent(data, 5, oldPath, oldContent);
    } else {
      ok, path, content := false, oldPath, oldContent;
    }
  }

  // The status line is cut off at the first line break, and the cut can be undone.
  lemma StatusCut(s: seq<char>)
    requires Terminated(s) && Find(CStr(s), CRLF) >= 0
    ensures var end := Find(CStr(s), CRLF);
            end < |s| && s[end] == '\r' && CStr(s[end := NUL]) == CStr(s)[..end]
  {
    var end := Find(CStr(s), CRLF);
    var cut := s[end := NUL];
    assert s[0..] == s && cut[0..] == cut;
    AtIsCStr(s, 0);
    AtIsCStr(cut, 0);
    FoundAt(CStr(s), CRLF);
    assert CStr(s)[end] == CStr(s)[end..end + |CRLF|][0];
    AtIs(s, 0, end);
    AtCut(s, 0, end);
  }

  // parseResponse with getHttpResponseCode: the buffer is as before when the status line is well defined.
  method ParseResponse(data: array<char>, oldCode: string, oldBody: string)
    returns (ok: bool, code: string, body: string)
    requires Terminated(data[..])
    modifies data
    ensures (ok, code, body) == Http.ParseResponse(CStr(old(data[..])), oldCode, oldBody)
    ensures var end := Find(CStr(old(data[..])), CRLF);
            data[..] == if ok || end < 0 then old(data[..]) else old(data[..])[end := NUL]
  {
    ok, code, body := false, oldCode, oldBody;
    ghost var s := data[..];
    var end := Find(CStr(data[..]), CRLF);
    if end < 0 {
      return;
    }
    StatusCut(s);
    data[end] := NUL;
    assert data[..] == s[end := NUL];
    var words := Words(CStr(data[..]));
    if |words| < 3 {
      return;
    }
    code := words[1];
    data[end] := '\r';
    assert data[..] == s;
    var text := CStr(data[..]);
    var blank := Find(text, BLANK);
    body := if blank >= 0 then text[blank + 4..] else [];
    ok := true;
  }

  // ---------------------------------------------------------------- the printer, as it appends

  lemma LinesOfTwo(a: string, b: string)
    ensures Lines([a, b]) == CRLF + (a + (CRLF + b))
  {
    assert [a, b][1..] == [b] && [b][1..] == [];
    assert Lines([b]) == CRLF + b;
  }

  lemma HostAppended(start: string, host: string, number: string)
    ensures start + " HTTP/1.1\r\n" + "Host: " + host + ":" + number ==
            start + (" HTTP/1.1" + (CRLF + ("Host: " + (host + (":" + number)))))
  {
    assert " HTTP/1.1\r\n" == " HTTP/1.1" + CRLF;
  }

  lemma AuthAppended(start: string, host: string, auth: string)
    ensures start + (" HTTP/1.1" + (CRLF + host)) + "\r\nAuthorization: " + auth ==
            start + (" HTTP/1.1" + Lines([host, "Authorization: " + auth]))
  {
    LinesOfTwo(host, "Authorization: " + auth);
    assert "\r\nAuthorization: " == CRLF + "Authorization: ";
  }

  // addCommonHeader
  method AddCommonHeader(dest: string, host: string, port: nat, path: string, auth: string, params: string,
                         t: RequestType) returns (r: string)
    ensures r == Verb(dest, t) + (Target(path, params) + (" HTTP/1.1" + Lines(HostLines(host, port, auth))))
  {
    r := Verb(dest, t);
    r := r + path;
    if params != [] {
      r := r + "?";
      r := r + params;
    }
    ghost var start := Verb(dest, t) + Target(path, params);
    assert r == start;
    r := r + " HTTP/1.1\r\n";
    r := r + "Host: ";
    r := r + host;
    r := r + ":";
    r := r + Decimal(port);
    ghost var hostLine := "Host: " + (host + (":" + Decimal(port)));
    HostAppended(start, host, Decimal(port));
    if auth != [] {
      r := r + "\r\nAuthorization: ";
      r := r + auth;
      AuthAppended(start, hostLine, auth);
      assert HostLines(host, port, auth) == [hostLine, "Authorization: " + auth];
    } else {
      assert HostLines(host, port, auth) == [hostLine];
      assert Lines([hostLine]) == CRLF + hostLine;
    }
    AppendAssoc(Verb(dest, t), Target(path, params), " HTTP/1.1" + Lines(HostLines(host, port, auth)));
  }

  // addBodyToRequest
  method AddBodyToRequest(body: string, contentType: string, dest: string) returns (r: string)
    ensures r == dest + (Lines(BodyLines(contentType, body)) + Ending(contentType, body))
  {
    r := dest;
    if contentType != [] {
      r := r + "\r\nContent-Type: ";
      r := r + contentType;
      r := r + "\r\nContent-Length: ";
      r := r + Decimal(|body|);
      TwoLinesAppended(dest, contentType, Decimal(|body|));
      r := r + BLANK;
    }
    BodyAppended(dest, contentType, body, r);
    if body != [] {
      r := r + body;
    }
  }

  lemma TwoLinesAppended(dest: string, contentType: string, size: string)
    ensures dest + "\r\nContent-Type: " + contentType + "\r\nContent-Length: " + size ==
            dest + Lines([TYPE + contentType] + [LENGTH + size])
  {
    assert "\r\nContent-Type: " == CRLF + TYPE && "\r\nContent-Length: " == CRLF + LENGTH;
    LinesAppended(dest, TYPE, contentType, LENGTH, size);
  }

  lemma LinesAppended(dest: string, a: string, first: string, b: string, second: string)
    ensures dest + (CRLF + a) + first + (CRLF + b) + second == dest + Lines([a + first] + [b + second])
  {
    LinesOfTwo(a + first, b + second);
    assert [a + first] + [b + second] == [a + first, b + second];
  }

  lemma BodyAppended(dest: string, contentType: string, body: string, r: string)
    requires r == if contentType == [] then dest else dest + Lines(BodyLines(contentType, body)) + BLANK
    ensures r + body == dest + (Lines(BodyLines(contentType, body)) + Ending(contentType, body))
  {
    var lines := Lines(BodyLines(contentType, body));
    if contentType == [] {
      assert lines + body == body;
    } else {
      AppendAssoc(lines, BLANK, body);
      AppendAssoc(dest, lines, BLANK + body);
      AppendAssoc(dest + lines, BLANK, body);
    }
  }

  method CreateGetRequest(host: string, port: nat, path: string, auth: string, params: string) returns (dest: string)
    ensures dest == GetRequest(host, port, path, auth, params)
  {
    dest := AddCommonHeader([], host, port, path, auth, params, Get);
    dest := dest + BLANK;
    Regroup("GET ", Target(path, params), Lines(HostLines(host, port, auth)), [], BLANK);
  }

  method CreatePutPostRequest(previous: string, host: string, port: nat, path: string, auth: string, params: string,
                              body: string, contentType: string, t: RequestType) returns (dest: string)
    ensures dest == BodyRequest(previous, t, host, port, path, auth, params, body, contentType)
  {
    dest := AddCommonHeader(previous, host, port, path, auth, params, t);
    dest := AddBodyToRequest(body, contentType, dest);
    LinesAppend(HostLines(host, port, auth), BodyLines(contentType, body));
    Regroup(Verb(previous, t), Target(path, params), Lines(HostLines(host, port, auth)),
            Lines(BodyLines(contentType, body)), Ending(contentType, body));
  }

  method CreateResponse(result: string, contentType: string, body: string) returns (dest: string)
    ensures dest == Response(result, contentType, body)
  {
    dest := AddBodyToRequest(body, contentType, result);
  }

  lemma {:induction false} LinesAppend(a: seq<string>, b: seq<string>)
    ensures Lines(a + b) == Lines(a) + Lines(b)
  {
    AppendTail(a, b);
    if a != [] {
      LinesAppend(a[1..], b);
      AppendAssoc(a[0], Lines(a[1..]), Lines(b));
      AppendAssoc(CRLF, a[0] + Lines(a[1..]), Lines(b));
    } else {
      assert Lines(a) + Lines(b) == Lines(b);
    }
  }

  lemma Regroup(verb: string, target: string, lines: string, more: string, ending: string)
    ensures verb + (target + (" HTTP/1.1" + lines)) + (more + ending) ==
            verb + (target + (" " + ("HTTP/1.1" + (lines + more + ending))))
  {
    assert " HTTP/1.1" == " " + "HTTP/1.1";
  }
}
