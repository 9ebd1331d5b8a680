/** Finding `router.<verb>( ... )` calls by balancing parentheses over strings and trailing comments. */
module RouteScanner {
  import opened Common
  import opened CommentStripper

  // ----- The scanner. -----

  /** What a call starts with: the receiver text, one of the verbs, white space. */
  datatype Syntax = Syntax(receiver: string, verbs: seq<string>, spaces: set<char>)

  const ROUTER := Syntax("router.", ["get", "post", "put", "patch", "delete"], WHITE_SPACE)

  predicate IsQuote(c: char) { c == '\'' || c == '"' || c == '`' }

  predicate StartsAt(s: string, i: nat, word: string): (r: bool)
    ensures r ==> i + |word| <= |s|
    decreases |word|
  {
    if word == [] then i <= |s|
    else i < |s| && s[i] == word[0] && StartsAt(s, i + 1, word[1..])
  }

  lemma {:induction false} StartsAtIffSlice(s: string, i: nat, word: string)
    ensures StartsAt(s, i, word) <==> i + |word| <= |s| && s[i..i + |word|] == word
    decreases |word|
  {
    if word != [] && i < |s| {
      StartsAtIffSlice(s, i + 1, word[1..]);
      if i + |word| <= |s| {
        var here := s[i..i + |word|];
        assert here[0] == s[i] && here[1..] == s[i + 1..i + |word|];
        assert here == [here[0]] + here[1..] && word == [word[0]] + word[1..];
      }
    }
  }

  lemma {:induction false} CharAt(s: string, i: nat, word: string, k: nat)
    requires StartsAt(s, i, word) && k < |word|
    ensures s[i + k] == word[k]
    decreases k
  {
    if k > 0 {
      CharAt(s, i + 1, word[1..], k - 1);
    }
  }

  lemma {:induction false} StartsAtConcat(s: string, i: nat, a: string, b: string)
    requires StartsAt(s, i, a + b)
    ensures StartsAt(s, i, a) && StartsAt(s, i + |a|, b)
    decreases |a|
  {
    if a == [] {
      assert a + b == b;
    } else {
      assert (a + b)[0] == a[0] && (a + b)[1..] == a[1..] + b;
      StartsAtConcat(s, i + 1, a[1..], b);
    }
  }

  /** First position of `c` at or after `i`, or the end. */
  function IndexOf(s: string, c: char, i: nat): (j: nat)
    requires i <= |s|
    ensures i <= j <= |s|
    ensures j < |s| ==> s[j] == c
    ensures forall k :: i <= k < j ==> s[k] != c
    decreases |s| - i
  {
    if i < |s| && s[i] != c then IndexOf(s, c, i + 1) else i
  }

  /** Where the scan that stands at `i`, `depth` parentheses deep and inside `quote`, stops. */
  function ScanEnd(s: string, i: nat, depth: nat, quote: Option<char>): (e: nat)
    requires i <= |s| + 1
    ensures i <= e <= |s| + 1
    decreases |s| + 1 - i
  {
    if i >= |s| || depth == 0 then i
    else if quote.Some? then
      if s[i] == '\\' then ScanEnd(s, i + 2, depth, quote)
      else ScanEnd(s, i + 1, depth, if s[i] == quote.value then None else quote)
    else if s[i] == '/' && i + 1 < |s| && s[i + 1] == '/' then ScanEnd(s, IndexOf(s, '\n', i), depth, None)
    else if IsQuote(s[i]) then ScanEnd(s, i + 1, depth, Some(s[i]))
    else ScanEnd(s, i + 1, if s[i] == '(' then depth + 1 else if s[i] == ')' then depth - 1 else depth, None)
  }

  function VerbAt(s: string, i: nat, verbs: seq<string>): (r: Option<string>)
    ensures r.Some? ==> StartsAt(s, i, r.value)
  {
    if verbs == [] then None
    else if StartsAt(s, i, verbs[0]) then Some(verbs[0])
    else VerbAt(s, i, verbs[1..])
  }

  /** Receiver, verb, white space, `(` at `k`: the verb and the position after the parenthesis. */
  function OpenerAt(y: Syntax, s: string, k: nat): (r: Option<(string, nat)>)
    ensures r.Some? ==> k < r.value.1 <= |s|
  {
    if !StartsAt(s, k, y.receiver) then None
    else
      match VerbAt(s, k + |y.receiver|, y.verbs)
      case None => None
      case Some(verb) =>
        var j := SkipSpace(y.spaces, s, k + |y.receiver| + |verb|);
        if j < |s| && s[j] == '(' then Some((verb, j + 1)) else None
  }

  function NextOpener(y: Syntax, s: string, i: nat): (k: nat)
    requires i <= |s|
    ensures i <= k <= |s|
    ensures k < |s| ==> OpenerAt(y, s, k).Some?
    decreases |s| - i
  {
    if i == |s| || OpenerAt(y, s, i).Some? then i else NextOpener(y, s, i + 1)
  }

  /** No opener is passed over. */
  lemma {:induction false} NextOpenerIsFirst(y: Syntax, s: string, i: nat, j: nat)
    requires i <= j < |s| && OpenerAt(y, s, j).Some?
    ensures NextOpener(y, s, i) <= j
    decreases j - i
  {
    if i < j { NextOpenerIsFirst(y, s, i + 1, j); }
  }

  /** The first quote of any kind at or after `i`, or the end. */
  function QuoteFrom(s: string, i: nat): (j: nat)
    requires i <= |s|
    ensures i <= j <= |s|
    decreases |s| - i
  {
    if i < |s| && !IsQuote(s[i]) then QuoteFrom(s, i + 1) else i
  }

  /** Where the arguments' first item starts: after white space, and one comment line with its white space. */
  function FirstItem(w: set<char>, args: string): (j: nat)
    ensures j <= |args|
  {
    var i := SkipSpace(w, args, 0);
    if SlashesAt(args, i) && IndexOf(args, '\n', i) < |args| then SkipSpace(w, args, IndexOf(args, '\n', i) + 1) else i
  }

  /** The path of a call: its first argument, if that is a string without quotes inside. */
  function PathOf(w: set<char>, args: string): Option<string> {
    var j := FirstItem(w, args);
    if j < |args| && IsQuote(args[j]) then
      var e := QuoteFrom(args, j + 1);
      if e < |args| && args[e] == args[j] then Some(args[j + 1..e]) else None
    else None
  }

  /** A call found: its verb, path, argument text, the rest of its line, line number, and span. */
  datatype RouteCall = RouteCall(verb: string, path: Option<string>, args: string, trailing: string, line: nat, start: nat, argsAt: nat, end: nat)

  /** The call at `k` whose verb is known and whose arguments start at `start`. */
  function CallFrom(w: set<char>, s: string, k: nat, verb: string, start: nat): (c: RouteCall)
    requires k < start <= |s|
    ensures c.start == k && c.argsAt == start && c.argsAt <= c.end <= |s| + 1
  {
    var i := ScanEnd(s, start, 1, None);
    var args := s[start..Max(start, i - 1)];
    var trailing := if i <= |s| then s[i..IndexOf(s, '\n', i)] else "";
    RouteCall(verb, PathOf(w, args), args, trailing, LineOf(s, k), k, start, i)
  }

  function CallAt(y: Syntax, s: string, k: nat): (c: RouteCall)
    requires k < |s| && OpenerAt(y, s, k).Some?
    ensures c.start == k < c.argsAt <= c.end <= |s| + 1
  {
    CallFrom(y.spaces, s, k, OpenerAt(y, s, k).value.0, OpenerAt(y, s, k).value.1)
  }

  /** The calls from position `i` on. */
  function CallsFrom(y: Syntax, s: string, i: nat): (calls: seq<RouteCall>)
    decreases |s| + 1 - i
  {
    if i > |s| || NextOpener(y, s, i) == |s| then []
    else
      var c := CallAt(y, s, NextOpener(y, s, i));
      [c] + CallsFrom(y, s, c.end)
  }

  /** The scan runs to the end of the text, or stops behind a parenthesis that closes. */
  lemma {:induction false} ScanStops(s: string, i: nat, depth: nat, quote: Option<char>)
    requires i <= |s| + 1 && depth > 0
    ensures var e := ScanEnd(s, i, depth, quote); e >= |s| || (e > i && s[e - 1] == ')')
    decreases |s| + 1 - i
  {
    if i < |s| {
      if quote.Some? {
        if s[i] == '\\' { ScanStops(s, i + 2, depth, quote); }
        else { ScanStops(s, i + 1, depth, if s[i] == quote.value then None else quote); }
      } else if s[i] == '/' && i + 1 < |s| && s[i + 1] == '/' {
        ScanStops(s, IndexOf(s, '\n', i), depth, None);
      } else if IsQuote(s[i]) {
        ScanStops(s, i + 1, depth, Some(s[i]));
      } else if s[i] != ')' || depth > 1 {
        ScanStops(s, i + 1, if s[i] == '(' then depth + 1 else if s[i] == ')' then depth - 1 else depth, None);
      }
    }
  }

  /** What opens a call: the receiver, a verb, white space and a parenthesis, and nothing else. */
  predicate Opens(y: Syntax, s: string, k: nat, verb: string, start: nat) {
    var v := k + |y.receiver| + |verb|;
    && verb in y.verbs && v < start <= |s|
    && s[k..k + |y.receiver|] == y.receiver && s[k + |y.receiver|..v] == verb
    && AllIn(s[v..start - 1], y.spaces) && s[start - 1] == '('
  }

  lemma {:induction false} VerbFound(s: string, i: nat, verbs: seq<string>)
    requires VerbAt(s, i, verbs).Some?
    ensures VerbAt(s, i, verbs).value in verbs
  {
    if !StartsAt(s, i, verbs[0]) { VerbFound(s, i, verbs[1..]); }
  }

  lemma OpenerOpens(y: Syntax, s: string, k: nat)
    requires OpenerAt(y, s, k).Some?
    ensures Opens(y, s, k, OpenerAt(y, s, k).value.0, OpenerAt(y, s, k).value.1)
  {
    var (verb, start) := OpenerAt(y, s, k).value;
    var v := k + |y.receiver| + |verb|;
    StartsAtIffSlice(s, k, y.receiver);
    StartsAtIffSlice(s, k + |y.receiver|, verb);
    VerbFound(s, k + |y.receiver|, y.verbs);
    SkipSpaceStops(y.spaces, s, v);
  }

  lemma CallsUnfold(y: Syntax, s: string, i: nat, before: seq<RouteCall>, c: RouteCall)
    requires i <= |s| && NextOpener(y, s, i) < |s| && c == CallAt(y, s, NextOpener(y, s, i))
    ensures before + CallsFrom(y, s, i) == (before + [c]) + CallsFrom(y, s, c.end)
  {
  }

  method ScanArgs(cleaned: string, start: nat) returns (i: nat)
    requires start <= |cleaned|
    ensures i == ScanEnd(cleaned, start, 1, None)
  {
    var depth: nat := 1;
    var quote: Option<char> := None;
    i := start;
    while i < |cleaned| && depth > 0
      invariant start <= i <= |cleaned| + 1
      invariant ScanEnd(cleaned, i, depth, quote) == ScanEnd(cleaned, start, 1, None)
      decreases |cleaned| + 1 - i
    {
      var ch := cleaned[i];
      if quote.Some? {
        if ch == '\\' {
          i := i + 2;
          continue;
        }
        if ch == quote.value {
          quote := None;
        }
        i := i + 1;
        continue;
      }
      if ch == '/' && i + 1 < |cleaned| && cleaned[i + 1] == '/' {
        i := IndexOf(cleaned, '\n', i);
        continue;
      }
      if IsQuote(ch) {
        quote := Some(ch);
      } else if ch == '(' {
        depth := depth + 1;
      } else if ch == ')' {
        depth := depth - 1;
      }
      i := i + 1;
    }
  }

  /** The call at `index` whose arguments start at `start`. */
  method ReadFrom(w: set<char>, cleaned: string, index: nat, verb: string, start: nat) returns (call: RouteCall)
    requires index < start <= |cleaned|
    ensures call == CallFrom(w, cleaned, index, verb, start)
  {
    var i := ScanArgs(cleaned, start);
    assert i == ScanEnd(cleaned, start, 1, None);
    var args := cleaned[start..Max(start, i - 1)];
    var trailing := if i <= |cleaned| then cleaned[i..IndexOf(cleaned, '\n', i)] else "";
    call := RouteCall(verb, PathOf(w, args), args, trailing, LineOf(cleaned, index), index, start, i);
  }

  /** The call that opens at `index`. */
  method ReadCall(y: Syntax, cleaned: string, index: nat) returns (call: RouteCall)
    requires index < |cleaned| && OpenerAt(y, cleaned, index).Some?
    ensures call == CallAt(y, cleaned, index)
  {
    var opener := OpenerAt(y, cleaned, index).value;
    call := ReadFrom(y.spaces, cleaned, index, opener.0, opener.1);
  }

  method ExtractRouteCalls(y: Syntax, cleaned: string) returns (calls: seq<RouteCall>)
    ensures calls == CallsFrom(y, cleaned, 0)
    ensures forall c :: c in calls ==> PlacedIn(y, cleaned, c)
  {
    calls := [];
    var lastIndex := 0;
    var more := NextOpener(y, cleaned, 0) < |cleaned|;
    while more
      invariant 0 <= lastIndex <= |cleaned| + 1
      invariant more <==> lastIndex <= |cleaned| && NextOpener(y, cleaned, lastIndex) < |cleaned|
      invariant calls + CallsFrom(y, cleaned, lastIndex) == CallsFrom(y, cleaned, 0)
      decreases |cleaned| + 1 - lastIndex
    {
      var call := ReadCall(y, cleaned, NextOpener(y, cleaned, lastIndex));
      CallsUnfold(y, cleaned, lastIndex, calls, call);
      calls := calls + [call];
      lastIndex := call.end;
      more := lastIndex <= |cleaned| && NextOpener(y, cleaned, lastIndex) < |cleaned|;
    }
    forall c | c in calls ensures PlacedIn(y, cleaned, c) {
      CallsArePlaced(y, cleaned, 0, c);
    }
  }

  // ----- On arbitrary input. -----

  /** Spans lie between `i` and the end of the text and do not overlap. */
  ghost predicate Increasing(s: string, i: nat, calls: seq<RouteCall>)
    decreases |calls|
  {
    calls == [] ||
    (i <= calls[0].start < calls[0].argsAt <= calls[0].end <= |s| + 1 && Increasing(s, calls[0].end, calls[1..]))
  }

  /** `trailing` is the rest of the line from `end` on. */
  predicate RestOfLine(s: string, end: nat, trailing: string) {
    var eol := end + |trailing|;
    && '\n' !in trailing
    && (end > |s| ==> trailing == "")
    && (end <= |s| ==> eol <= |s| && s[end..eol] == trailing && (eol == |s| || s[eol] == '\n'))
  }

  lemma RestIsRead(s: string, end: nat)
    requires end <= |s|
    ensures RestOfLine(s, end, s[end..IndexOf(s, '\n', end)])
  {
  }

  /** The argument text lies between the opening parenthesis and one that closes, or runs to the end. */
  predicate ArgsUpTo(s: string, start: nat, end: nat, args: string) {
    start <= |s| && start <= end <= |s| + 1 && args == s[start..Max(start, end - 1)] && (end >= |s| || (end > 0 && s[end - 1] == ')'))
  }

  /** A call as it stands in the text: its opener, its arguments, the line it starts on, and the rest of the line it ends on. */
  ghost predicate PlacedIn(y: Syntax, s: string, c: RouteCall) {
    && Opens(y, s, c.start, c.verb, c.argsAt)
    && ArgsUpTo(s, c.argsAt, c.end, c.args)
    && c.line == 1 + |set p | 0 <= p < c.start && s[p] == '\n'|
    && RestOfLine(s, c.end, c.trailing)
  }

  lemma CallFromIsPlaced(w: set<char>, s: string, k: nat, verb: string, start: nat)
    requires k < start <= |s|
    ensures var c := CallFrom(w, s, k, verb, start); ArgsUpTo(s, start, c.end, c.args) && RestOfLine(s, c.end, c.trailing)
  {
    ScanStops(s, start, 1, None);
    var end := ScanEnd(s, start, 1, None);
    if end <= |s| { RestIsRead(s, end); }
  }

  lemma CallIsPlaced(y: Syntax, s: string, k: nat)
    requires k < |s| && OpenerAt(y, s, k).Some?
    ensures PlacedIn(y, s, CallAt(y, s, k))
  {
    var (verb, start) := OpenerAt(y, s, k).value;
    LineCountsBreaks(s, k);
    OpenerOpens(y, s, k);
    CallFromIsPlaced(y.spaces, s, k, verb, start);
  }

  /** Every call found in any text stands there as it is reported. */
  lemma {:induction false} CallsArePlaced(y: Syntax, s: string, i: nat, c: RouteCall)
    requires c in CallsFrom(y, s, i)
    ensures PlacedIn(y, s, c)
    decreases |s| + 1 - i
  {
    var k := NextOpener(y, s, i);
    var first := CallAt(y, s, k);
    if c == first {
      CallIsPlaced(y, s, k);
    } else {
      CallsArePlaced(y, s, first.end, c);
    }
  }

  /** The calls found in any text have disjoint spans, in increasing order. */
  lemma {:induction false} SpansIncrease(y: Syntax, s: string, i: nat)
    ensures Increasing(s, i, CallsFrom(y, s, i))
    decreases |s| + 1 - i
  {
    if i <= |s| && NextOpener(y, s, i) < |s| {
      var c := CallAt(y, s, NextOpener(y, s, i));
      SpansIncrease(y, s, c.end);
      assert CallsFrom(y, s, i)[1..] == CallsFrom(y, s, c.end);
    }
  }

  // ----- The path of a call. -----

  lemma {:induction false} QuoteFromReaches(s: string, i: nat, e: nat)
    requires i <= e < |s| && IsQuote(s[e]) && forall k :: i <= k < e ==> !IsQuote(s[k])
    ensures QuoteFrom(s, i) == e
    decreases e - i
  {
    if i < e { QuoteFromReaches(s, i + 1, e); }
  }

  /** Nothing but white space and at most one comment line, with its line break. */
  predicate Lead(w: set<char>, lead: string, comment: bool, text: string, spaces: string, more: string) {
    && (forall k :: 0 <= k < |spaces| ==> spaces[k] in w) && (forall k :: 0 <= k < |more| ==> more[k] in w)
    && '\n' !in text && lead == if comment then spaces + (("//" + text + "\n") + more) else spaces
  }

  /** The path is read back: after any such lead, a quoted text without quotes inside is the call's path. */
  lemma PathIsRead(w: set<char>, lead: string, comment: bool, text: string, spaces: string, more: string,
                   q: char, path: string, rest: string)
    requires Lead(w, lead, comment, text, spaces, more) && IsQuote(q) && q !in w && '/' !in w
    requires forall k :: 0 <= k < |path| ==> !IsQuote(path[k])
    ensures PathOf(w, lead + ([q] + (path + ([q] + rest)))) == Some(path)
  {
    var args := lead + ([q] + (path + ([q] + rest)));
    LeadIsSkipped(w, lead, comment, text, spaces, more, [q] + (path + ([q] + rest)));
    var j := |lead|;
    var e := j + 1 + |path|;
    assert args[j] == q && args[e] == q && args[j + 1..e] == path;
    forall k | j + 1 <= k < e ensures !IsQuote(args[k]) {
      assert args[k] == path[k - j - 1];
    }
    QuoteFromReaches(args, j + 1, e);
  }

  lemma FirstItemStands(w: set<char>, args: string) returns (comment: bool, text: string, spaces: string, more: string)
    ensures Lead(w, args[..FirstItem(w, args)], comment, text, spaces, more)
  {
    var i, j := SkipSpace(w, args, 0), FirstItem(w, args);
    SkipSpaceStops(w, args, 0);
    spaces, comment, text, more := args[..i], false, "", "";
    if SlashesAt(args, i) && IndexOf(args, '\n', i) < |args| {
      var e := IndexOf(args, '\n', i);
      SkipSpaceStops(w, args, e + 1);
      comment, text, more := true, args[i + 2..e], args[e + 1..j];
      assert args[..j] == spaces + (("//" + text + "\n") + more);
    }
  }

  /**
   * And nothing else is taken for one: a path that is read is quoted text without quotes inside, the first item of the
   * arguments after white space and at most one comment line.
   */
  lemma PathStands(w: set<char>, args: string) returns (j: nat, comment: bool, text: string, spaces: string, more: string)
    requires PathOf(w, args).Some?
    ensures var path := PathOf(w, args).value;
            && j + |path| + 1 < |args| && Lead(w, args[..j], comment, text, spaces, more)
            && IsQuote(args[j]) && args[j + 1..j + |path| + 1] == path && args[j + |path| + 1] == args[j]
            && forall k :: 0 <= k < |path| ==> !IsQuote(path[k])
  {
    j := FirstItem(w, args);
    comment, text, spaces, more := FirstItemStands(w, args);
    QuoteIsFirst(args, j + 1);
  }

  lemma {:induction false} QuoteIsFirst(s: string, i: nat)
    requires i <= |s|
    ensures forall k :: i <= k < QuoteFrom(s, i) ==> !IsQuote(s[k])
    decreases |s| - i
  {
    if i < |s| && !IsQuote(s[i]) { QuoteIsFirst(s, i + 1); }
  }

  lemma LeadIsSkipped(w: set<char>, lead: string, comment: bool, text: string, spaces: string, more: string, item: string)
    requires Lead(w, lead, comment, text, spaces, more) && '/' !in w
    requires item != [] && item[0] !in w && item[0] != '/'
    ensures FirstItem(w, lead + item) == |lead|
  {
    var args := lead + item;
    var i := |spaces|;
    assert forall k :: 0 <= k < i ==> args[k] == spaces[k];
    if comment {
      var n := i + 2 + |text|;
      assert lead[i] == '/' && lead[i + 1] == '/' && lead[n] == '\n';
      assert args[i] == '/' && args[i + 1] == '/' && args[n] == '\n';
      SkipSpaceReaches(w, args, 0, i);
      assert forall k :: i + 2 <= k < n ==> args[k] == text[k - i - 2];
      IndexOfReaches(args, '\n', i, n);
      assert forall k :: n + 1 <= k < |lead| ==> args[k] == more[k - n - 1];
      assert args[|lead|] == item[0];
      SkipSpaceReaches(w, args, n + 1, |lead|);
    } else {
      assert args[i] == item[0];
      SkipSpaceReaches(w, args, 0, i);
    }
  }

  lemma {:induction false} IndexOfReaches(s: string, c: char, i: nat, e: nat)
    requires i <= e < |s| && s[e] == c && forall k :: i <= k < e ==> s[k] != c
    ensures IndexOf(s, c, i) == e
    decreases e - i
  {
    if i < e { IndexOfReaches(s, c, i + 1, e); }
  }

  // ----- The printer the scanner inverts. -----

  /** A character inside a quoted string, or one escaped by a backslash. */
  datatype QuotedChar = Literal(c: char) | Escaped(c: char)

  /** Argument text: plain characters, strings, `//` comments ended by a line break, and nested parentheses. */
  datatype Args =
    | Nil
    | Plain(c: char, rest: Args)
    | Quoted(quote: char, body: seq<QuotedChar>, rest: Args)
    | LineComment(text: string, rest: Args)
    | Parens(inner: Args, rest: Args)

  function PrintChar(b: QuotedChar): string {
    match b
    case Literal(c) => [c]
    case Escaped(c) => ['\\', c]
  }

  function PrintBody(body: seq<QuotedChar>): string {
    if body == [] then []
    else PrintChar(body[0]) + PrintBody(body[1..])
  }

  function Print(a: Args): string {
    match a
    case Nil => []
    case Plain(c, rest) => [c] + Print(rest)
    case Quoted(q, body, rest) => [q] + (PrintBody(body) + ([q] + Print(rest)))
    case LineComment(text, rest) => ("//" + text + "\n") + Print(rest)
    case Parens(inner, rest) => "(" + (Print(inner) + (")" + Print(rest)))
  }

  /** No plain character is a delimiter, no two plain slashes meet, and each piece stays within its own marks. */
  predicate WellFormed(a: Args) {
    match a
    case Nil => true
    case Plain(c, rest) =>
      && !IsQuote(c) && c != '(' && c != ')' && (c == '/' ==> Print(rest) == [] || Print(rest)[0] != '/')
      && WellFormed(rest)
    case Quoted(q, body, rest) =>
      && IsQuote(q) && (forall b :: b in body && b.Literal? ==> b.c != q && b.c != '\\')
      && WellFormed(rest)
    case LineComment(text, rest) => '\n' !in text && WellFormed(rest)
    case Parens(inner, rest) => WellFormed(inner) && WellFormed(rest)
  }

  lemma {:induction false} ScanBody(s: string, i: nat, depth: nat, q: char, body: seq<QuotedChar>)
    requires depth > 0 && StartsAt(s, i, PrintBody(body)) && i + |PrintBody(body)| < |s|
    requires forall b :: b in body && b.Literal? ==> b.c != q && b.c != '\\'
    ensures ScanEnd(s, i, depth, Some(q)) == ScanEnd(s, i + |PrintBody(body)|, depth, Some(q))
    decreases |body|
  {
    if body != [] {
      var first := PrintChar(body[0]);
      StartsAtConcat(s, i, first, PrintBody(body[1..]));
      CharAt(s, i, first, 0);
      ScanBody(s, i + |first|, depth, q, body[1..]);
    }
  }

  lemma CommentEnds(s: string, i: nat, text: string)
    requires StartsAt(s, i, "//" + text + "\n") && '\n' !in text
    ensures s[i] == '/' && s[i + 1] == '/' && IndexOf(s, '\n', i) == i + 2 + |text| < |s|
  {
    var word := "//" + text + "\n";
    assert word[0] == '/' && word[1] == '/' && word[2 + |text|] == '\n';
    CharAt(s, i, word, 0);
    CharAt(s, i, word, 1);
    CharAt(s, i, word, 2 + |text|);
    assert forall k :: 0 <= k < 2 + |text| ==> word[k] != '\n';
    forall k | i <= k < i + 2 + |text| ensures s[k] != '\n' {
      CharAt(s, i, word, k - i);
    }
  }

  lemma {:induction false} ScanComment(s: string, i: nat, depth: nat, text: string)
    requires depth > 0 && StartsAt(s, i, "//" + text + "\n") && '\n' !in text
    ensures ScanEnd(s, i, depth, None) == ScanEnd(s, i + |text| + 3, depth, None)
  {
    CommentEnds(s, i, text);
    var j := i + 2 + |text|;
    assert s[j] == '\n';
    assert ScanEnd(s, i, depth, None) == ScanEnd(s, j, depth, None);
  }

  lemma {:induction false} ScanQuoted(s: string, i: nat, depth: nat, q: char, body: seq<QuotedChar>)
    requires depth > 0 && IsQuote(q) && StartsAt(s, i, [q]) && StartsAt(s, i + 1, PrintBody(body))
    requires StartsAt(s, i + 1 + |PrintBody(body)|, [q])
    requires forall b :: b in body && b.Literal? ==> b.c != q && b.c != '\\'
    ensures ScanEnd(s, i, depth, None) == ScanEnd(s, i + |PrintBody(body)| + 2, depth, None)
  {
    var j := i + 1 + |PrintBody(body)|;
    CharAt(s, i, [q], 0);
    CharAt(s, j, [q], 0);
    ScanBody(s, i + 1, depth, q, body);
    assert q != '\\' && q != '/';
    assert ScanEnd(s, j, depth, Some(q)) == ScanEnd(s, j + 1, depth, None);
  }

  lemma QuotedParts(s: string, i: nat, q: char, body: string, rest: string)
    requires StartsAt(s, i, [q] + (body + ([q] + rest)))
    ensures StartsAt(s, i, [q]) && StartsAt(s, i + 1, body)
    ensures StartsAt(s, i + 1 + |body|, [q]) && StartsAt(s, i + |body| + 2, rest)
  {
    StartsAtConcat(s, i, [q], body + ([q] + rest));
    StartsAtConcat(s, i + 1, body, [q] + rest);
    StartsAtConcat(s, i + 1 + |body|, [q], rest);
  }

  lemma ParensParts(s: string, i: nat, inner: string, rest: string)
    requires StartsAt(s, i, "(" + (inner + (")" + rest)))
    ensures s[i] == '(' && StartsAt(s, i + 1, inner)
    ensures s[i + 1 + |inner|] == ')' && StartsAt(s, i + 2 + |inner|, rest)
  {
    StartsAtConcat(s, i, "(", inner + (")" + rest));
    StartsAtConcat(s, i + 1, inner, ")" + rest);
    StartsAtConcat(s, i + 1 + |inner|, ")", rest);
    CharAt(s, i, "(", 0);
    CharAt(s, i + 1 + |inner|, ")", 0);
  }

  /** Printed argument text stands from `i` to `end`, and a closing parenthesis after it. */
  predicate PrintedAt(s: string, i: nat, end: nat, depth: nat, a: Args) {
    && WellFormed(a) && depth > 0 && StartsAt(s, i, Print(a))
    && end == i + |Print(a)| && end < |s| && s[end] == ')'
  }

  /** The scan gets from `i` to `end` without a change of depth. */
  predicate Passes(s: string, i: nat, end: nat, depth: nat)
    requires i <= |s| && end <= |s|
  {
    ScanEnd(s, i, depth, None) == ScanEnd(s, end, depth, None)
  }

  /** Scanning well-formed text at any depth comes out after it at the same depth. */
  lemma {:induction false} ScanPrinted(s: string, i: nat, end: nat, depth: nat, a: Args)
    requires PrintedAt(s, i, end, depth, a)
    ensures Passes(s, i, end, depth)
    decreases a, 1
  {
    match a {
      case Nil =>
      case Plain(_, _) => ScanPlain(s, i, end, depth, a);
      case Quoted(_, _, _) => ScanString(s, i, end, depth, a);
      case LineComment(_, _) => ScanLineComment(s, i, end, depth, a);
      case Parens(_, _) => ScanParens(s, i, end, depth, a);
    }
  }

  lemma {:induction false} ScanPlain(s: string, i: nat, end: nat, depth: nat, a: Args)
    requires a.Plain? && PrintedAt(s, i, end, depth, a)
    ensures Passes(s, i, end, depth)
    decreases a, 0
  {
    var r := Print(a.rest);
    StartsAtConcat(s, i, [a.c], r);
    CharAt(s, i, [a.c], 0);
    if r != [] {
      CharAt(s, i + 1, r, 0);
    }
    assert ScanEnd(s, i, depth, None) == ScanEnd(s, i + 1, depth, None);
    ScanPrinted(s, i + 1, end, depth, a.rest);
  }

  lemma {:induction false} ScanString(s: string, i: nat, end: nat, depth: nat, a: Args)
    requires a.Quoted? && PrintedAt(s, i, end, depth, a)
    ensures Passes(s, i, end, depth)
    decreases a, 0
  {
    var b, r := PrintBody(a.body), Print(a.rest);
    QuotedParts(s, i, a.quote, b, r);
    ScanQuoted(s, i, depth, a.quote, a.body);
    ScanPrinted(s, i + |b| + 2, end, depth, a.rest);
  }

  lemma {:induction false} ScanLineComment(s: string, i: nat, end: nat, depth: nat, a: Args)
    requires a.LineComment? && PrintedAt(s, i, end, depth, a)
    ensures Passes(s, i, end, depth)
    decreases a, 0
  {
    StartsAtConcat(s, i, "//" + a.text + "\n", Print(a.rest));
    ScanComment(s, i, depth, a.text);
    ScanPrinted(s, i + |a.text| + 3, end, depth, a.rest);
  }

  lemma {:induction false} ScanParens(s: string, i: nat, end: nat, depth: nat, a: Args)
    requires a.Parens? && PrintedAt(s, i, end, depth, a)
    ensures Passes(s, i, end, depth)
    decreases a, 0
  {
    var close := PrintedParens(s, i, end, depth, a);
    ScanPrinted(s, i + 1, close, depth + 1, a.inner);
    ScanPrinted(s, close + 1, end, depth, a.rest);
    ParensPass(s, i, depth, close, end);
  }

  lemma PrintedParens(s: string, i: nat, end: nat, depth: nat, a: Args) returns (close: nat)
    requires a.Parens? && PrintedAt(s, i, end, depth, a)
    ensures i < close < end && s[i] == '('
    ensures PrintedAt(s, i + 1, close, depth + 1, a.inner) && PrintedAt(s, close + 1, end, depth, a.rest)
  {
    var p := Print(a.inner);
    ParensParts(s, i, p, Print(a.rest));
    close := i + 1 + |p|;
  }

  /** An opening parenthesis, a stretch scanned one level deeper up to its closing one, and what follows it. */
  lemma ParensPass(s: string, i: nat, depth: nat, close: nat, end: nat)
    requires depth > 0 && i < close < end < |s| && s[i] == '(' && s[close] == ')'
    requires Passes(s, i + 1, close, depth + 1) && Passes(s, close + 1, end, depth)
    ensures Passes(s, i, end, depth)
  {
  }

  // ----- Whole files. -----

  /** A call in a file, after some text that opens no call. */
  datatype Route = Route(gap: string, verb: string, spaces: string, args: Args)

  function PrintRoute(y: Syntax, r: Route): string {
    r.gap + (y.receiver + (r.verb + (r.spaces + ("(" + (Print(r.args) + ")")))))
  }

  function PrintRoutes(y: Syntax, routes: seq<Route>, tail: string): string {
    if routes == [] then tail else PrintRoute(y, routes[0]) + PrintRoutes(y, routes[1..], tail)
  }

  predicate ValidRoute(y: Syntax, r: Route) {
    r.verb in y.verbs && WellFormed(r.args) && AllIn(r.spaces, y.spaces)
  }

  predicate AllIn(text: string, chars: set<char>) {
    forall k :: 0 <= k < |text| ==> text[k] in chars
  }

  /** No call opens between `from` and `to`. */
  predicate Quiet(y: Syntax, s: string, from: nat, to: nat) {
    forall k :: from <= k < to ==> OpenerAt(y, s, k).None?
  }

  /** No call opens in the text around the printed calls. */
  predicate QuietAround(y: Syntax, s: string, from: nat, routes: seq<Route>)
    decreases |routes|
  {
    if routes == [] then Quiet(y, s, from, |s|)
    else
      && Quiet(y, s, from, from + |routes[0].gap|)
      && QuietAround(y, s, from + |PrintRoute(y, routes[0])|, routes[1..])
  }

  /** No verb is a prefix of another, and white space does not run over the parenthesis. */
  predicate Unambiguous(y: Syntax) {
    '(' !in y.spaces && forall v, w :: v in y.verbs && w in y.verbs && v <= w ==> v == w
  }

  lemma RouterIsUnambiguous()
    ensures Unambiguous(ROUTER)
  {
    WhiteSpaceIsValid();
    forall v, w | v in ROUTER.verbs && w in ROUTER.verbs && v <= w ensures v == w {
      assert v[0] == w[0] && v[1] == w[1];
    }
  }

  lemma {:induction false} NextOpenerSkips(y: Syntax, s: string, from: nat, k: nat)
    requires from <= k <= |s| && Quiet(y, s, from, k) && (k < |s| ==> OpenerAt(y, s, k).Some?)
    ensures NextOpener(y, s, from) == k
    decreases k - from
  {
    if from < k {
      NextOpenerSkips(y, s, from + 1, k);
    }
  }

  lemma {:induction false} SomeVerbIsFound(s: string, i: nat, verb: string, verbs: seq<string>)
    requires verb in verbs && StartsAt(s, i, verb)
    ensures VerbAt(s, i, verbs).Some? && VerbAt(s, i, verbs).value in verbs
  {
    if !StartsAt(s, i, verbs[0]) {
      SomeVerbIsFound(s, i, verb, verbs[1..]);
    }
  }

  lemma PrintedVerbIsFound(y: Syntax, s: string, i: nat, verb: string)
    requires Unambiguous(y) && verb in y.verbs && StartsAt(s, i, verb)
    ensures VerbAt(s, i, y.verbs) == Some(verb)
  {
    SomeVerbIsFound(s, i, verb, y.verbs);
    var found := VerbAt(s, i, y.verbs).value;
    StartsAtIffSlice(s, i, verb);
    StartsAtIffSlice(s, i, found);
    var n := Min(|verb|, |found|);
    assert verb[..n] == s[i..i + n] == found[..n];
    assert verb <= found || found <= verb;
  }

  lemma SpacesAreSkipped(w: set<char>, s: string, i: nat, spaces: string)
    requires '(' !in w && AllIn(spaces, w) && StartsAt(s, i, spaces) && StartsAt(s, i + |spaces|, "(")
    ensures SkipSpace(w, s, i) == i + |spaces| < |s| && s[i + |spaces|] == '('
  {
    CharAt(s, i + |spaces|, "(", 0);
    forall j | i <= j < i + |spaces| ensures s[j] in w {
      CharAt(s, i, spaces, j - i);
    }
    SkipSpaceReaches(w, s, i, i + |spaces|);
  }

  lemma OpenerFrom(y: Syntax, s: string, k: nat, verb: string, e: nat)
    requires StartsAt(s, k, y.receiver) && VerbAt(s, k + |y.receiver|, y.verbs) == Some(verb)
    requires k + |y.receiver| + |verb| <= |s| && SkipSpace(y.spaces, s, k + |y.receiver| + |verb|) == e < |s| && s[e] == '('
    ensures OpenerAt(y, s, k) == Some((verb, e + 1))
  {
  }

  lemma PrintedOpener(y: Syntax, s: string, k: nat, v: nat, verb: string, spaces: string)
    requires Unambiguous(y) && verb in y.verbs && AllIn(spaces, y.spaces)
    requires v == k + |y.receiver| && StartsAt(s, k, y.receiver) && StartsAt(s, v, verb)
    requires StartsAt(s, v + |verb|, spaces) && StartsAt(s, v + |verb| + |spaces|, "(")
    ensures OpenerAt(y, s, k) == Some((verb, v + |verb| + |spaces| + 1))
  {
    PrintedVerbIsFound(y, s, v, verb);
    SpacesAreSkipped(y.spaces, s, v + |verb|, spaces);
    OpenerFrom(y, s, k, verb, v + |verb| + |spaces|);
  }

  /** Where the parts of a printed call stand. */
  lemma PrintedParts(y: Syntax, s: string, from: nat, r: Route) returns (v: nat, start: nat)
    requires StartsAt(s, from, PrintRoute(y, r))
    ensures var k := from + |r.gap|;
            && v == k + |y.receiver| && start == v + |r.verb| + |r.spaces| + 1
            && StartsAt(s, k, y.receiver) && StartsAt(s, v, r.verb) && StartsAt(s, v + |r.verb|, r.spaces)
            && StartsAt(s, v + |r.verb| + |r.spaces|, "(")
    ensures StartsAt(s, start, Print(r.args)) && StartsAt(s, start + |Print(r.args)|, ")")
    ensures start + |Print(r.args)| + 1 == from + |PrintRoute(y, r)|
  {
    var p := Print(r.args);
    var k := from + |r.gap|;
    v := k + |y.receiver|;
    start := v + |r.verb| + |r.spaces| + 1;
    var afterVerb := r.spaces + ("(" + (p + ")"));
    StartsAtConcat(s, from, r.gap, y.receiver + (r.verb + afterVerb));
    StartsAtConcat(s, k, y.receiver, r.verb + afterVerb);
    StartsAtConcat(s, v, r.verb, afterVerb);
    ArgsParts(s, v + |r.verb|, r.spaces, p);
  }

  lemma ArgsParts(s: string, i: nat, spaces: string, p: string)
    requires StartsAt(s, i, spaces + ("(" + (p + ")")))
    ensures StartsAt(s, i, spaces) && StartsAt(s, i + |spaces|, "(")
    ensures StartsAt(s, i + |spaces| + 1, p) && StartsAt(s, i + |spaces| + 1 + |p|, ")")
  {
    StartsAtConcat(s, i, spaces, "(" + (p + ")"));
    StartsAtConcat(s, i + |spaces|, "(", p + ")");
    StartsAtConcat(s, i + |spaces| + 1, p, ")");
  }

  /** The scan of a printed call's arguments takes in exactly the printed text. */
  lemma PrintedArgsAreScanned(s: string, start: nat, a: Args)
    requires WellFormed(a) && StartsAt(s, start, Print(a)) && StartsAt(s, start + |Print(a)|, ")")
    ensures ScanEnd(s, start, 1, None) == start + |Print(a)| + 1
    ensures s[start..start + |Print(a)|] == Print(a)
  {
    var stop := start + |Print(a)|;
    CharAt(s, stop, ")", 0);
    StartsAtIffSlice(s, start, Print(a));
    ScanPrinted(s, start, stop, 1, a);
    assert ScanEnd(s, stop, 1, None) == ScanEnd(s, stop + 1, 0, None) == stop + 1;
  }

  /** A call found is what it should be: the printed verb and argument text. */
  predicate Matches(c: RouteCall, r: Route) {
    c.verb == r.verb && c.args == Print(r.args)
  }

  /** What is read once the verb is known and the printed arguments stand behind the opener. */
  lemma ArgsAreRead(w: set<char>, s: string, k: nat, r: Route, start: nat)
    requires k < start && WellFormed(r.args)
    requires StartsAt(s, start, Print(r.args)) && StartsAt(s, start + |Print(r.args)|, ")")
    ensures var c := CallFrom(w, s, k, r.verb, start);
            Matches(c, r) && c.end == start + |Print(r.args)| + 1 && c.path == PathOf(w, Print(r.args))
  {
    PrintedArgsAreScanned(s, start, r.args);
  }

  /** The next call is the one at `k`. */
  lemma CallComesNext(y: Syntax, s: string, from: nat, k: nat, c: RouteCall)
    requires from <= k < |s| && Quiet(y, s, from, k) && OpenerAt(y, s, k).Some? && c == CallAt(y, s, k)
    ensures CallsFrom(y, s, from) == [c] + CallsFrom(y, s, c.end)
  {
    NextOpenerSkips(y, s, from, k);
  }

  /** A printed call opens where it stands, and its arguments follow. */
  lemma PrintedCallOpens(y: Syntax, s: string, from: nat, r: Route) returns (k: nat, start: nat)
    requires Unambiguous(y) && ValidRoute(y, r) && StartsAt(s, from, PrintRoute(y, r))
    ensures k == from + |r.gap| < start && OpenerAt(y, s, k) == Some((r.verb, start))
    ensures StartsAt(s, start, Print(r.args)) && StartsAt(s, start + |Print(r.args)|, ")")
    ensures start + |Print(r.args)| + 1 == from + |PrintRoute(y, r)|
  {
    k := from + |r.gap|;
    var v;
    v, start := PrintedParts(y, s, from, r);
    PrintedOpener(y, s, k, v, r.verb, r.spaces);
  }

  /** Its verb and argument text come back exactly. */
  lemma PrintedCallIsRead(y: Syntax, s: string, from: nat, r: Route) returns (k: nat, c: RouteCall)
    requires Unambiguous(y) && ValidRoute(y, r) && StartsAt(s, from, PrintRoute(y, r))
    ensures k == from + |r.gap| < |s| && OpenerAt(y, s, k).Some? && c == CallAt(y, s, k)
    ensures Matches(c, r) && c.end == from + |PrintRoute(y, r)|
  {
    var start;
    k, start := PrintedCallOpens(y, s, from, r);
    ArgsAreRead(y.spaces, s, k, r, start);
    c := CallFrom(y.spaces, s, k, r.verb, start);
  }

  /** With no opener in its gap, it is the next call found. */
  lemma PrintedCallComesFirst(y: Syntax, s: string, from: nat, r: Route) returns (c: RouteCall)
    requires Unambiguous(y) && ValidRoute(y, r) && StartsAt(s, from, PrintRoute(y, r))
    requires Quiet(y, s, from, from + |r.gap|)
    ensures CallsFrom(y, s, from) == [c] + CallsFrom(y, s, c.end)
    ensures Matches(c, r) && c.start == from + |r.gap| && c.end == from + |PrintRoute(y, r)|
  {
    var k;
    k, c := PrintedCallIsRead(y, s, from, r);
    CallComesNext(y, s, from, k, c);
  }

  predicate AllMatch(calls: seq<RouteCall>, routes: seq<Route>) {
    |calls| == |routes| && forall i :: 0 <= i < |routes| ==> Matches(calls[i], routes[i])
  }

  lemma FirstAndRestMatch(c: RouteCall, calls: seq<RouteCall>, routes: seq<Route>)
    requires routes != [] && Matches(c, routes[0]) && AllMatch(calls, routes[1..])
    ensures AllMatch([c] + calls, routes)
  {
    var all := [c] + calls;
    forall i | 0 <= i < |routes| ensures Matches(all[i], routes[i]) {
      if i > 0 {
        assert all[i] == calls[i - 1] && routes[i] == routes[1..][i - 1];
      }
    }
  }

  /** The rest of a file printed from `routes` stands at `i`, the end of the text, and opens no other call. */
  predicate FileFrom(y: Syntax, s: string, i: nat, routes: seq<Route>, tail: string) {
    && StartsAt(s, i, PrintRoutes(y, routes, tail)) && i + |PrintRoutes(y, routes, tail)| == |s|
    && (forall r :: r in routes ==> ValidRoute(y, r)) && QuietAround(y, s, i, routes)
  }

  lemma FileAfterFirst(y: Syntax, s: string, i: nat, routes: seq<Route>, tail: string, end: nat)
    requires FileFrom(y, s, i, routes, tail) && routes != [] && end == i + |PrintRoute(y, routes[0])|
    ensures StartsAt(s, i, PrintRoute(y, routes[0])) && FileFrom(y, s, end, routes[1..], tail)
  {
    StartsAtConcat(s, i, PrintRoute(y, routes[0]), PrintRoutes(y, routes[1..], tail));
  }

  lemma FirstOfFile(y: Syntax, s: string, i: nat, routes: seq<Route>, tail: string) returns (c: RouteCall)
    requires Unambiguous(y) && FileFrom(y, s, i, routes, tail) && routes != []
    ensures CallsFrom(y, s, i) == [c] + CallsFrom(y, s, c.end) && Matches(c, routes[0])
    ensures FileFrom(y, s, c.end, routes[1..], tail)
  {
    FileAfterFirst(y, s, i, routes, tail, i + |PrintRoute(y, routes[0])|);
    c := PrintedCallComesFirst(y, s, i, routes[0]);
    FileAfterFirst(y, s, i, routes, tail, c.end);
  }

  lemma NoCallInFile(y: Syntax, s: string, i: nat, tail: string)
    requires FileFrom(y, s, i, [], tail)
    ensures CallsFrom(y, s, i) == []
  {
    NextOpenerSkips(y, s, i, |s|);
  }

  /**
   * Round trip: scanning a file printed from any list of calls, separated by text that opens no
   * call, gives back exactly those calls: same verbs, same argument texts, same order.
   */
  lemma {:induction false} ExtractInvertsPrint(y: Syntax, s: string, from: nat, routes: seq<Route>, tail: string)
    requires Unambiguous(y) && FileFrom(y, s, from, routes, tail)
    ensures AllMatch(CallsFrom(y, s, from), routes)
    decreases |routes|
  {
    if routes == [] {
      NoCallInFile(y, s, from, tail);
    } else {
      var c := FirstOfFile(y, s, from, routes, tail);
      ExtractInvertsPrint(y, s, c.end, routes[1..], tail);
      FirstAndRestMatch(c, CallsFrom(y, s, c.end), routes);
    }
  }

  lemma FileRoundTrip(y: Syntax, routes: seq<Route>, tail: string)
    requires Unambiguous(y) && (forall r :: r in routes ==> ValidRoute(y, r))
    requires QuietAround(y, PrintRoutes(y, routes, tail), 0, routes)
    ensures AllMatch(CallsFrom(y, PrintRoutes(y, routes, tail), 0), routes)
  {
    var file := PrintRoutes(y, routes, tail);
    StartsAtIffSlice(file, 0, file);
    ExtractInvertsPrint(y, file, 0, routes, tail);
  }

  /** The round trip for a whole file of `router` calls. */
  lemma RouterFileRoundTrip(routes: seq<Route>, tail: string)
    requires (forall r :: r in routes ==> ValidRoute(ROUTER, r))
    requires QuietAround(ROUTER, PrintRoutes(ROUTER, routes, tail), 0, routes)
    ensures AllMatch(CallsFrom(ROUTER, PrintRoutes(ROUTER, routes, tail), 0), routes)
  {
    RouterIsUnambiguous();
    FileRoundTrip(ROUTER, routes, tail);
  }

  /** A call found opens where it says, on the line it says, and its path is the one in its arguments. */
  lemma {:induction false} CallStands(y: Syntax, s: string, i: nat, a: nat)
    requires a < |CallsFrom(y, s, i)|
    ensures var c := CallsFrom(y, s, i)[a];
            && c.start < |s| && c.line == LineOf(s, c.start) && OpenerAt(y, s, c.start).Some?
            && c.path == PathOf(y.spaces, c.args)
    decreases a
  {
    if a > 0 {
      CallStands(y, s, CallAt(y, s, NextOpener(y, s, i)).end, a - 1);
    }
  }

  lemma LineStands(y: Syntax, s: string, c: RouteCall)
    requires c in CallsFrom(y, s, 0)
    ensures c.start < |s| && c.line == LineOf(s, c.start)
  {
    var a :| 0 <= a < |CallsFrom(y, s, 0)| && CallsFrom(y, s, 0)[a] == c;
    CallStands(y, s, 0, a);
  }

  /** The line reported for each call is its line in the original source, before comments were stripped. */
  lemma ReportedLineIsOriginal(y: Syntax, source: string)
    ensures forall c :: c in CallsFrom(y, StripComments(source), 0) ==>
              c.start <= |source| && c.line == LineOf(source, c.start)
  {
    StrippingKeepsPositions(source, 0);
    forall c | c in CallsFrom(y, StripComments(source), 0) ensures c.start <= |source| && c.line == LineOf(source, c.start) {
      LineStands(y, StripComments(source), c);
      StrippingKeepsPositions(source, c.start);
    }
  }

  /** Position `k` lies in no whole-line comment of `t`. */
  ghost predicate OutsideLineComments(t: string, k: nat) {
    forall b: nat, m: nat :: WholeLineComment(WHITE_SPACE, t, b, m) && m <= k ==> LineEndFrom(t, m) <= k
  }

  /** Where a whole-line comment of the source covers `k`, one of its slashes belongs to a block comment. */
  ghost predicate LineCommentsLost(source: string, blocks: seq<Block>, k: nat) {
    forall b: nat, m: nat :: WholeLineComment(WHITE_SPACE, source, b, m) && m <= k < LineEndFrom(source, m) ==>
      Inside(blocks, m) || Inside(blocks, m + 1)
  }

  /** A character that is still a letter after stripping was in no block comment and in no whole-line comment that stripping could see. */
  lemma LettersAreOutsideComments(source: string, blocks: seq<Block>, k: nat)
    requires Blocks(source, 0, blocks) && k < |source| == |StripComments(source)| && StripComments(source)[k] == 'r'
    ensures !Inside(blocks, k) && source[k] == 'r'
    ensures OutsideLineComments(StripBlocks(source, 0), k)
    ensures LineCommentsLost(source, blocks, k)
  {
    var t := StripBlocks(source, 0);
    BlanksExactlyTheBlocks(source, blocks);
    StripLinesKeepsLayout(WHITE_SPACE, t, 0);
    assert t[0..] == t;
    WhiteSpaceIsValid();
    forall b: nat, m: nat | WholeLineComment(WHITE_SPACE, t, b, m) && m <= k ensures LineEndFrom(t, m) <= k {
      if k < LineEndFrom(t, m) {
        LineCommentsAreBlanked(WHITE_SPACE, t, b, m, k);
      }
    }
    forall b: nat, m: nat | WholeLineComment(WHITE_SPACE, source, b, m) && m <= k < LineEndFrom(source, m)
      ensures Inside(blocks, m) || Inside(blocks, m + 1)
    {
      if !Inside(blocks, m) && !Inside(blocks, m + 1) {
        SourceLineCommentIsBlanked(source, blocks, b, m, k);
      }
    }
  }

  lemma CallStartsWithLetter(s: string, c: RouteCall)
    requires c in CallsFrom(ROUTER, s, 0)
    ensures c.start < |s| && s[c.start] == 'r'
  {
    var calls := CallsFrom(ROUTER, s, 0);
    var a :| 0 <= a < |calls| && calls[a] == c;
    CallStands(ROUTER, s, 0, a);
    CharAt(s, c.start, ROUTER.receiver, 0);
  }

  /**
   * No `router` call is reported from inside a block comment of the source (`BlocksFrom` is the one reading of those),
   * and none from a whole-line comment, unless a slash of that comment belongs to a block comment.
   */
  lemma CallsStartOutsideComments(source: string)
    ensures forall c :: c in CallsFrom(ROUTER, StripComments(source), 0) ==>
              && !Inside(BlocksFrom(source, 0), c.start) && OutsideLineComments(StripBlocks(source, 0), c.start)
              && LineCommentsLost(source, BlocksFrom(source, 0), c.start)
  {
    var s := StripComments(source);
    var calls := CallsFrom(ROUTER, s, 0);
    var blocks := BlocksFrom(source, 0);
    BlocksFromReads(source, 0);
    StrippingKeepsPositions(source, 0);
    forall c | c in calls
      ensures !Inside(blocks, c.start) && OutsideLineComments(StripBlocks(source, 0), c.start)
      ensures LineCommentsLost(source, blocks, c.start)
    {
      CallStartsWithLetter(s, c);
      LettersAreOutsideComments(source, blocks, c.start);
    }
  }

  /** On a text like this the block comment takes the second slash away, and the line is no comment any more. */
  lemma HiddenLineIsStripped(source: string, rest: string)
    requires source == ['/', '/', '*', '*', '/'] + rest && '/' !in rest && '*' !in rest
    ensures StripComments(source) == ['/', ' ', ' ', ' ', ' '] + rest
  {
    assert source[5..] == rest;
    HiddenBlock(source, rest);
    var t := ['/', ' ', ' ', ' ', ' '] + rest;
    assert StripBlocks(source, 0) == t;
    forall p | 0 <= p < |t| ensures !SlashesAt(t, p) {
      if p >= 4 && p + 1 < |t| { assert t[p + 1] == rest[p - 4]; }
    }
    NoLineToBlank(WHITE_SPACE, t, 0);
    assert t[0..] == t;
  }

  lemma HiddenBlock(source: string, rest: string)
    requires source == ['/', '/', '*', '*', '/'] + rest && '/' !in rest && '*' !in rest && source[5..] == rest
    ensures StripBlocks(source, 0) == ['/', ' ', ' ', ' ', ' '] + rest
  {
    forall p | 5 <= p < |source| ensures !OpensAt(source, p) {
      assert source[p] == rest[p - 5];
    }
    NothingToBlank(source, 5);
    assert ClosesAt(source, 3) && BlockEnd(source, 3) == Some(5);
    assert CommentAt(source, 1) == Some(5) && CommentAt(source, 0) == None;
    assert Blank(source[1..5]) == [' ', ' ', ' ', ' '];
    assert StripBlocks(source, 1) == [' ', ' ', ' ', ' '] + rest;
    assert StripBlocks(source, 0) == ['/'] + ([' ', ' ', ' ', ' '] + rest);
  }

  /**
   * So a call inside a whole-line comment of the source can be reported: any call without a slash or a star in it,
   * on a line that starts with two slashes and an empty block comment that shares the second one.
   */
  lemma HiddenCallIsReported(r: Route, source: string)
    requires ValidRoute(ROUTER, r) && r.gap == ['/', ' ', ' ', ' ', ' ']
    requires var rest := PrintRoute(ROUTER, r)[5..];
             '/' !in rest && '*' !in rest && source == ['/', '/', '*', '*', '/'] + rest
    ensures WholeLineComment(WHITE_SPACE, source, 0, 0) && 5 < LineEndFrom(source, 0)
    ensures var calls := CallsFrom(ROUTER, StripComments(source), 0);
            |calls| > 0 && calls[0].start == 5 && Matches(calls[0], r)
  {
    var s, rest := PrintRoute(ROUTER, r), PrintRoute(ROUTER, r)[5..];
    assert s == r.gap + rest;
    HiddenLineIsStripped(source, rest);
    PrintedCallIsFirst(s, r);
    RestStartsCall(r, rest);
    HiddenLineCovers(source, rest);
  }

  lemma RestStartsCall(r: Route, rest: string)
    requires PrintRoute(ROUTER, r) == r.gap + rest
    ensures rest != [] && rest[0] == 'r'
  {
    var s := PrintRoute(ROUTER, r);
    var after := ROUTER.receiver + (r.verb + (r.spaces + ("(" + (Print(r.args) + ")"))));
    assert s == r.gap + after;
    assert rest == s[|r.gap|..] == after;
    assert after[0] == ROUTER.receiver[0];
  }

  lemma HiddenLineCovers(source: string, rest: string)
    requires source == ['/', '/', '*', '*', '/'] + rest && rest != [] && rest[0] == 'r'
    ensures WholeLineComment(WHITE_SPACE, source, 0, 0) && 5 < LineEndFrom(source, 0)
  {
    assert source[5] == 'r';
    LineReaches(source, 0, 5);
  }

  lemma PrintedCallIsFirst(s: string, r: Route)
    requires ValidRoute(ROUTER, r) && s == PrintRoute(ROUTER, r) && 'r' !in r.gap
    ensures var calls := CallsFrom(ROUTER, s, 0);
            |calls| > 0 && calls[0].start == |r.gap| && Matches(calls[0], r)
  {
    StartsAtIffSlice(s, 0, s);
    RouterIsUnambiguous();
    GapIsQuiet(s, r.gap, |r.gap|);
    var c := PrintedCallComesFirst(ROUTER, s, 0, r);
  }

  lemma GapIsQuiet(s: string, gap: string, n: nat)
    requires n == |gap| <= |s| && s[..n] == gap && 'r' !in gap
    ensures Quiet(ROUTER, s, 0, n)
  {
    forall j | 0 <= j < n ensures OpenerAt(ROUTER, s, j).None? {
      assert s[j] == s[..n][j];
      assert !StartsAt(s, j, ROUTER.receiver);
    }
  }

  /**
   * The round trip from a commented source: with block comments and whole-line comments between and inside the calls,
   * whatever they say, the calls read are those of the file that is left when each comment is replaced by blanks.
   */
  lemma CommentedFileRoundTrip(source: string, blocks: seq<Block>, routes: seq<Route>, tail: string)
    requires Blocks(source, 0, blocks) && Uncommented(source, blocks, PrintRoutes(ROUTER, routes, tail))
    requires (forall r :: r in routes ==> ValidRoute(ROUTER, r))
    requires QuietAround(ROUTER, PrintRoutes(ROUTER, routes, tail), 0, routes)
    ensures AllMatch(CallsFrom(ROUTER, StripComments(source), 0), routes)
  {
    StripCommentsUncomments(source, blocks, PrintRoutes(ROUTER, routes, tail));
    RouterFileRoundTrip(routes, tail);
  }
}
