/** Reading messages back: a header and multipart reader in the sense of RFC 5322 section 2.1 and
    RFC 2046 section 5.1.1, and proofs that it inverts the message builder. */
module MessageParsing {
  import opened Text
  import opened SortedTexts
  import opened LineEndings
  import opened Emails
  import opened Messages

  // ---------------------------------------------------------------- the reader

  datatype Cut = NotFound | Cut(before: string, after: string)

  /** Splits a text at the first occurrence of a pattern. */
  function CutAt(s: string, pattern: string): Cut {
    if pattern <= s then Cut("", s[|pattern|..])
    else if s == "" then NotFound
    else
      match CutAt(s[1..], pattern)
      case NotFound => NotFound
      case Cut(before, after) => Cut([s[0]] + before, after)
  }

  lemma {:induction false} CutShortens(s: string, pattern: string)
    ensures CutAt(s, pattern).Cut? ==> |CutAt(s, pattern).after| + |pattern| + |CutAt(s, pattern).before| == |s|
  {
    if !(pattern <= s) && s != "" {
      CutShortens(s[1..], pattern);
    }
  }

  datatype Head = Head(lines: seq<string>, body: string)

  /** The header lines up to the first empty line, and what follows that line. */
  function ReadHead(m: string): Option<Head>
    decreases |m|
  {
    CutShortens(m, CRLF);
    match CutAt(m, CRLF)
    case NotFound => None
    case Cut(line, rest) =>
      if line == "" then Some(Head([], rest))
      else
        var head :- ReadHead(rest);
        Some(Head([line] + head.lines, head.body))
  }

  /** Field name and value of a header line: the name ends at the first colon. */
  function FieldName(line: string): string {
    if line == "" || line[0] == ':' then "" else [line[0]] + FieldName(line[1..])
  }

  function ReadField(line: string): Option<Header> {
    var name := FieldName(line);
    if |line| >= |name| + 2 && line[|name|..|name| + 2] == ": "
    then Some(Header(name, line[|name| + 2..]))
    else None
  }

  predicate StartsBlank(line: string) {
    line != "" && (line[0] == ' ' || line[0] == '\t')
  }

  /** Unfolding (RFC 5322 section 2.2.3): a line that starts with a blank continues the field before. */
  function Unfold(lines: seq<string>): (fields: seq<string>)
    ensures |fields| <= |lines| && (lines != [] ==> fields != [])
  {
    if lines == [] then []
    else
      var (before, line) := (Unfold(lines[..|lines| - 1]), lines[|lines| - 1]);
      if before != [] && StartsBlank(line) then before[|before| - 1 := before[|before| - 1] + line] else before + [line]
  }

  /** Each unfolded line read as a name and a value. */
  function Fields(lines: seq<string>): Option<seq<Header>> {
    if lines == [] then Some([])
    else
      var before :- Fields(lines[..|lines| - 1]);
      var field :- ReadField(lines[|lines| - 1]);
      Some(before + [field])
  }

  /** The headers of a message, as a reader gets them. */
  function ReadHeaders(m: string): Option<seq<Header>> {
    var head :- ReadHead(m);
    Fields(Unfold(head.lines))
  }

  /** The parts that follow a delimiter line, up to the closing delimiter. */
  function ReadParts(rest: string, boundary: string): Option<seq<string>>
    decreases |rest|
  {
    CutShortens(rest, CRLF + "--" + boundary);
    match CutAt(rest, CRLF + "--" + boundary)
    case NotFound => None
    case Cut(part, after) =>
      if "--" <= after then Some([part])
      else if CRLF <= after then
        var more :- ReadParts(after[2..], boundary);
        Some([part] + more)
      else None
  }

  function ReadMultipart(body: string, boundary: string): Option<seq<string>> {
    var opening := "--" + boundary + CRLF;
    if opening <= body then ReadParts(body[|opening|..], boundary) else None
  }

  /** The boundary parameter of a Content-Type line. */
  function BoundaryOf(line: string): Option<string> {
    match CutAt(line, "boundary=\"")
    case NotFound => None
    case Cut(_, after) =>
      match CutAt(after, "\"")
      case NotFound => None
      case Cut(boundary, _) => Some(boundary)
  }

  // ---------------------------------------------------------------- cutting

  lemma {:induction false} CutFirst(a: string, pattern: string, b: string)
    requires forall i :: 0 <= i < |a| ==> !(pattern <= (a + pattern + b)[i..])
    ensures CutAt(a + pattern + b, pattern) == Cut(a, b)
  {
    var s := a + pattern + b;
    if a == "" {
      assert s[..|pattern|] == pattern && s[|pattern|..] == b;
    } else {
      var rest := a[1..] + pattern + b;
      assert s[0..] == s && s[1..] == rest;
      forall i | 0 <= i < |a[1..]| ensures !(pattern <= rest[i..]) {
        assert rest[i..] == s[i + 1..];
      }
      CutFirst(a[1..], pattern, b);
    }
  }

  lemma CutFirstChar(a: string, pattern: string, b: string)
    requires pattern != "" && pattern[0] !in a
    ensures CutAt(a + pattern + b, pattern) == Cut(a, b)
  {
    var s := a + pattern + b;
    forall i | 0 <= i < |a| ensures !(pattern <= s[i..]) {
      assert s[i..][0] == a[i];
    }
    CutFirst(a, pattern, b);
  }

  // ---------------------------------------------------------------- header block

  function LinesOf(hs: seq<Header>): seq<string> {
    seq(|hs|, i requires 0 <= i < |hs| => Line(hs[i]))
  }

  lemma MessageStep(h: Header, rest: seq<Header>, body: string)
    ensures Message([h] + rest, body) == Line(h) + CRLF + Message(rest, body)
    ensures LinesOf([h] + rest) == [Line(h)] + LinesOf(rest)
  {
    hide Line;
    PrintAppend([h], rest);
    PrintSnoc([], h);
    assert [] + [h] == [h] && Print([h]) == Line(h) + CRLF;
    var p := Print(rest);
    assert Line(h) + CRLF + p + CRLF + body == Line(h) + CRLF + (p + CRLF + body);
  }

  /** Header lines without CR and LF come back as written, and the first empty line is the one that
      ends the header block, whatever the body is. */
  lemma {:induction false} HeadRoundTrip(hs: seq<Header>, body: string)
    requires forall k :: 0 <= k < |hs| ==> Unbroken(Line(hs[k]))
    ensures ReadHead(Message(hs, body)) == Some(Head(LinesOf(hs), body))
  {
    if hs == [] {
      CutFirstChar("", CRLF, body);
      assert Message(hs, body) == "" + CRLF + body && LinesOf(hs) == [];
    } else {
      var (h, rest) := (hs[0], hs[1..]);
      HeadRoundTrip(rest, body);
      assert hs == [h] + rest;
      MessageStep(h, rest, body);
      CutFirstChar(Line(h), CRLF, Message(rest, body));
    }
  }

  lemma {:induction false} NameEndsAtColon(name: string, rest: string)
    ensures ':' !in FieldName(name + ":" + rest)
    ensures ':' !in name ==> FieldName(name + ":" + rest) == name
  {
    if name != "" {
      assert (name + ":" + rest)[1..] == name[1..] + ":" + rest;
      NameEndsAtColon(name[1..], rest);
    }
  }

  /** A header line gives back its name and value exactly if the name has no colon; custom names are
      checked for CR and LF and reserved names, not for colons. */
  lemma FieldRoundTripExactly(h: Header)
    ensures ReadField(Line(h)) == Some(h) <==> ':' !in h.name
  {
    NameEndsAtColon(h.name, " " + h.value);
    assert Line(h) == h.name + ":" + (" " + h.value);
    if ':' !in h.name {
      assert Line(h)[|h.name|..|h.name| + 2] == ": " && Line(h)[|h.name| + 2..] == h.value;
    }
  }

  /** A name that a reader gets back: without a colon and not taken for a continuation line. */
  predicate Readable(name: string) {
    ':' !in name && !StartsBlank(name)
  }

  lemma LineStartsBlank(h: Header)
    ensures StartsBlank(Line(h)) <==> StartsBlank(h.name)
  {
  }

  lemma {:induction false} UnfoldKeeps(lines: seq<string>)
    requires forall k :: 0 < k < |lines| ==> !StartsBlank(lines[k])
    ensures Unfold(lines) == lines
  {
    if lines != [] {
      UnfoldKeeps(lines[..|lines| - 1]);
    }
  }

  lemma {:induction false} UnfoldJoins(lines: seq<string>, k: nat)
    requires 0 < k < |lines| && StartsBlank(lines[k])
    ensures |Unfold(lines)| < |lines|
  {
    if k < |lines| - 1 {
      UnfoldJoins(lines[..|lines| - 1], k);
    }
  }

  lemma {:induction false} FieldsSay(lines: seq<string>, hs: seq<Header>)
    ensures Fields(lines) == Some(hs)
       <==> |lines| == |hs| && forall k :: 0 <= k < |lines| ==> ReadField(lines[k]) == Some(hs[k])
  {
    hide ReadField;
    if lines != [] {
      if hs == [] {
        return;
      }
      var (before, field) := (hs[..|hs| - 1], hs[|hs| - 1]);
      FieldsSay(lines[..|lines| - 1], before);
      assert hs == before + [field];
      var read := Fields(lines[..|lines| - 1]);
      if Fields(lines) == Some(hs) {
        assert read.value + [ReadField(lines[|lines| - 1]).value] == before + [field];
        assert read.value == before;
      }
    }
  }

  /** A list of headers comes back as the same pairs if and only if every name is readable. */
  lemma FieldsRoundTripExactly(hs: seq<Header>)
    requires hs != [] ==> !StartsBlank(hs[0].name)
    ensures Fields(Unfold(LinesOf(hs))) == Some(hs) <==> forall k :: 0 <= k < |hs| ==> Readable(hs[k].name)
  {
    hide Line, ReadField, StartsBlank, Fields;
    var lines := LinesOf(hs);
    FieldsSay(Unfold(lines), hs);
    if k :| 0 <= k < |hs| && StartsBlank(hs[k].name) {
      LineStartsBlank(hs[k]);
      UnfoldJoins(lines, k);
    } else {
      forall k | 0 <= k < |hs| ensures !StartsBlank(lines[k]) {
        LineStartsBlank(hs[k]);
      }
      UnfoldKeeps(lines);
      forall k | 0 <= k < |hs| ensures ReadField(lines[k]) == Some(hs[k]) <==> Readable(hs[k].name) {
        FieldRoundTripExactly(hs[k]);
      }
    }
  }

  lemma UnfoldTwo(a: string, b: string)
    requires StartsBlank(b)
    ensures Unfold([a, b]) == [a + b]
  {
    hide StartsBlank;
    assert [a, b][..1] == [a] && [a][..0] == [];
    assert Unfold([a]) == [a];
    assert [a][0 := a + b] == [a + b];
  }

  lemma BlankNameJoins()
    ensures Unfold(LinesOf([Header("A", "b"), Header(" X", "v")])) == ["A: b X: v"]
  {
    hide Unfold;
    var hs := [Header("A", "b"), Header(" X", "v")];
    LineStartsBlank(hs[1]);
    assert LinesOf(hs) == [Line(hs[0]), Line(hs[1])];
    UnfoldTwo(Line(hs[0]), Line(hs[1]));
    assert Line(hs[0]) == "A: b" && Line(hs[1]) == " X: v";
    assert "A: b" + " X: v" == "A: b X: v";
  }

  /** A name that starts with a blank is accepted, and changes the value before it. */
  lemma BlankNamesAreAccepted()
    ensures ValidateHeader(" X", "v") == None
    ensures Fields(Unfold(LinesOf([Header("A", "b"), Header(" X", "v")]))) == Some([Header("A", "b X: v")])
  {
    hide Unfold, LinesOf, Fields, ReadField;
    assert Lower(" X")[0] == ' ';
    BlankNameJoins();
    var h := Header("A", "b X: v");
    assert Line(h) == "A: b X: v";
    FieldRoundTripExactly(h);
    FieldsSay(["A: b X: v"], [h]);
  }

  /** So is a name with a colon: "x:y" is. */
  lemma ColonNamesAreAccepted()
    ensures ValidateHeader("x:y", "z") == None && ReadField(Line(Header("x:y", "z"))) != Some(Header("x:y", "z"))
  {
    assert Lower("x:y") == "x:y";
    assert "x:y"[1] == ':';
    FieldRoundTripExactly(Header("x:y", "z"));
  }

  // ---------------------------------------------------------------- multipart framing

  lemma {:induction false} ContainsAt(s: string, i: nat, b: string)
    requires i <= |s| && b <= s[i..]
    ensures Contains(s, b)
  {
    if i > 0 {
      assert s[1..][i - 1..] == s[i..];
      ContainsAt(s[1..], i - 1, b);
    } else {
      assert s[0..] == s;
    }
  }

  lemma {:induction false} ContainedAt(s: string, b: string) returns (i: nat)
    requires Contains(s, b)
    ensures i + |b| <= |s| && b <= s[i..]
  {
    if b <= s {
      i := 0;
      assert s[0..] == s;
    } else {
      i := ContainedAt(s[1..], b);
      assert s[1..][i..] == s[i + 1..];
      i := i + 1;
    }
  }

  function Delimiter(boundary: string): string {
    CRLF + "--" + boundary
  }

  /** A prefix without the character `c` ends before the first `c`. */
  lemma PrefixStops(b: string, s: string, n: nat, c: char)
    requires b <= s && n < |s| && s[n] == c && c !in b
    ensures |b| <= n
  {
    assert forall m {:trigger s[m]} :: 0 <= m < |b| ==> s[m] == b[m];
    assert forall m {:trigger s[m]} :: 0 <= m < |b| ==> s[m] != c;
  }

  /** A delimiter that starts inside a part ends inside it. */
  lemma DelimiterEnds(part: string, boundary: string, tail: string, i: nat)
    requires Unbroken(boundary) && i < |part|
    requires Delimiter(boundary) <= (part + Delimiter(boundary) + tail)[i..]
    ensures i + |Delimiter(boundary)| <= |part|
  {
    var d := Delimiter(boundary);
    var s := part + d + tail;
    var (after, rest) := (d[1..], s[i + 1..]);
    assert after == "\n--" + boundary;
    assert after <= rest by {
      assert s[i..][1..] == rest && s[i..][..|d|] == d;
      assert d[1..] == rest[..|d| - 1];
    }
    assert '\r' !in after by {
      assert '\r' !in "\n--" && '\r' !in boundary;
    }
    assert rest[|part| - i - 1] == s[|part|] == '\r';
    PrefixStops(after, rest, |part| - i - 1, '\r');
  }

  lemma DelimiterInside(part: string, boundary: string, tail: string, i: nat)
    requires Unbroken(boundary) && i < |part|
    requires Delimiter(boundary) <= (part + Delimiter(boundary) + tail)[i..]
    ensures Contains(part, Delimiter(boundary))
  {
    hide Contains, Delimiter;
    DelimiterEnds(part, boundary, tail, i);
    ContainsInside(Delimiter(boundary), part, tail, i);
  }

  lemma ContainsInside(d: string, part: string, tail: string, i: nat)
    requires i + |d| <= |part| && d <= (part + d + tail)[i..]
    ensures Contains(part, d)
  {
    hide Contains;
    assert part + d + tail == part + (d + tail);
    PrefixInside(d, part, d + tail, i);
    ContainsAt(part, i, d);
  }

  lemma PrefixInside(d: string, part: string, tail: string, i: nat)
    requires i + |d| <= |part| && d <= (part + tail)[i..]
    ensures d <= part[i..]
  {
    assert (part + tail)[i..] == part[i..] + tail;
    assert part[i..][..|d|] == (part[i..] + tail)[..|d|];
  }

  /** Before the end of a part that does not contain the delimiter no delimiter starts. */
  lemma NoEarlyDelimiter(part: string, boundary: string, tail: string, i: nat)
    requires Unbroken(boundary) && !Contains(part, Delimiter(boundary)) && i < |part|
    ensures !(Delimiter(boundary) <= (part + Delimiter(boundary) + tail)[i..])
  {
    hide Contains, Delimiter;
    if Delimiter(boundary) <= (part + Delimiter(boundary) + tail)[i..] {
      DelimiterInside(part, boundary, tail, i);
    }
  }

  /** What follows the delimiter of a part. */
  function Tail(parts: seq<string>, boundary: string): string {
    if parts == [] then "--" + CRLF else CRLF + parts[0] + CRLF + Framed(parts[1..], boundary)
  }

  lemma FramedTail(parts: seq<string>, boundary: string)
    ensures Framed(parts, boundary) == "--" + boundary + Tail(parts, boundary)
  {
    var start := "--" + boundary;
    if parts == [] {
      assert start + "--" + CRLF == start + ("--" + CRLF);
    } else {
      assert start + CRLF + parts[0] + CRLF + Framed(parts[1..], boundary)
          == start + (CRLF + parts[0] + CRLF + Framed(parts[1..], boundary));
    }
  }

  lemma CutPart(part: string, more: seq<string>, boundary: string)
    requires Unbroken(boundary) && !Contains(part, Delimiter(boundary))
    ensures CutAt(part + CRLF + Framed(more, boundary), CRLF + "--" + boundary) == Cut(part, Tail(more, boundary))
  {
    hide Contains, CutAt, Framed, Tail;
    var d, tail := Delimiter(boundary), Tail(more, boundary);
    FramedTail(more, boundary);
    assert part + CRLF + ("--" + boundary + tail) == part + d + tail;
    forall i | 0 <= i < |part| ensures !(d <= (part + d + tail)[i..]) {
      NoEarlyDelimiter(part, boundary, tail, i);
    }
    CutFirst(part, d, tail);
  }

  /** Nothing before the cut starts the pattern. */
  lemma {:induction false} CutIsFirst(s: string, pattern: string, i: nat)
    requires CutAt(s, pattern).Cut? && i < |CutAt(s, pattern).before|
    ensures i < |s| && !(pattern <= s[i..])
  {
    if i > 0 {
      CutIsFirst(s[1..], pattern, i - 1);
      assert s[1..][i - 1..] == s[i..];
    } else {
      assert s[0..] == s;
    }
  }

  /** A part that contains the delimiter is cut too early. */
  lemma CutTooEarly(part: string, rest: string, boundary: string)
    requires Contains(part, Delimiter(boundary))
    ensures CutAt(part + rest, Delimiter(boundary)).Cut? ==> CutAt(part + rest, Delimiter(boundary)).before != part
  {
    hide Contains, CutAt;
    var d := Delimiter(boundary);
    var i := ContainedAt(part, d);
    assert (part + rest)[i..] == part[i..] + rest;
    assert d <= (part + rest)[i..];
    if CutAt(part + rest, d).Cut? && CutAt(part + rest, d).before == part {
      CutIsFirst(part + rest, d, i);
      assert false;
    }
  }

  lemma TailStart(more: seq<string>, boundary: string)
    ensures more == [] ==> "--" <= Tail(more, boundary)
    ensures more != [] ==>
      && !("--" <= Tail(more, boundary)) && CRLF <= Tail(more, boundary)
      && Tail(more, boundary)[2..] == more[0] + CRLF + Framed(more[1..], boundary)
  {
    hide Framed;
    if more != [] {
      var rest := more[0] + CRLF + Framed(more[1..], boundary);
      assert Tail(more, boundary) == CRLF + rest;
      assert (CRLF + rest)[0] == '\r' && (CRLF + rest)[2..] == rest;
    }
  }

  lemma {:induction false} PartsRoundTripExactly(parts: seq<string>, boundary: string)
    requires parts != [] && Unbroken(boundary)
    ensures ReadParts(parts[0] + CRLF + Framed(parts[1..], boundary), boundary) == Some(parts)
       <==> forall k :: 0 <= k < |parts| ==> !Contains(parts[k], Delimiter(boundary))
  {
    hide Contains, CutAt, Framed, Tail;
    var (part, more) := (parts[0], parts[1..]);
    assert parts == [part] + more;
    if Contains(part, Delimiter(boundary)) {
      EarlyPart(part, more, boundary);
    } else {
      CutPart(part, more, boundary);
      TailStart(more, boundary);
      if more == [] {
        assert parts == [part];
      } else {
        PartsRoundTripExactly(more, boundary);
        AllButFirst(parts, boundary);
        SomeMore(part, ReadParts(more[0] + CRLF + Framed(more[1..], boundary), boundary), more);
      }
    }
  }

  lemma AllButFirst(parts: seq<string>, boundary: string)
    requires parts != [] && !Contains(parts[0], Delimiter(boundary))
    ensures (forall k :: 0 <= k < |parts| ==> !Contains(parts[k], Delimiter(boundary)))
       <==> (forall k :: 0 <= k < |parts[1..]| ==> !Contains(parts[1..][k], Delimiter(boundary)))
  {
    hide Contains;
    forall k | 0 < k < |parts| ensures parts[k] == parts[1..][k - 1] {
    }
  }

  lemma SomeMore(part: string, read: Option<seq<string>>, more: seq<string>)
    ensures read.Some? ==> ([part] + read.value == [part] + more <==> read.value == more)
  {
    if read.Some? {
      assert ([part] + read.value)[1..] == read.value && ([part] + more)[1..] == more;
    }
  }

  lemma EarlyPart(part: string, more: seq<string>, boundary: string)
    requires Contains(part, Delimiter(boundary))
    ensures ReadParts(part + CRLF + Framed(more, boundary), boundary) != Some([part] + more)
  {
    hide Contains, CutAt, Framed;
    var rest := CRLF + Framed(more, boundary);
    assert part + CRLF + Framed(more, boundary) == part + rest;
    CutTooEarly(part, rest, boundary);
    var read := ReadParts(part + rest, boundary);
    assert read.Some? ==> read.value[0] == CutAt(part + rest, Delimiter(boundary)).before;
  }

  /** Multipart framing is inverted by the reader if and only if no part contains the delimiter, for
      every boundary without a line break. */
  lemma FramingRoundTripExactly(parts: seq<string>, boundary: string)
    requires parts != [] && Unbroken(boundary)
    ensures ReadMultipart(Framed(parts, boundary), boundary) == Some(parts)
       <==> forall k :: 0 <= k < |parts| ==> !Contains(parts[k], Delimiter(boundary))
  {
    hide Contains, Delimiter;
    var opening := "--" + boundary + CRLF;
    assert Framed(parts, boundary) == opening + (parts[0] + CRLF + Framed(parts[1..], boundary));
    PartsRoundTripExactly(parts, boundary);
  }

  // ---------------------------------------------------------------- whole messages

  lemma QuotableIsPlain(boundary: string)
    requires Quotable(boundary)
    ensures Unbroken(boundary) && '"' !in boundary
  {
  }

  lemma UnbrokenAppend(a: string, b: string)
    ensures Unbroken(a + b) <==> Unbroken(a) && Unbroken(b)
  {
  }

  lemma UnbrokenLine(h: Header)
    requires Unbroken(h.name) && Unbroken(h.value)
    ensures Unbroken(Line(h))
  {
    UnbrokenAppend(h.name, ": ");
    UnbrokenAppend(h.name + ": ", h.value);
  }

  lemma UnbrokenNames()
    ensures Unbroken("From") && Unbroken("To") && Unbroken("Subject") && Unbroken("Date") && Unbroken("1.0")
  {
  }

  lemma UnbrokenLongNames()
    ensures Unbroken("Reply-To") && Unbroken("Message-ID")
  {
  }

  lemma UnbrokenMimeVersion()
    ensures Unbroken("MIME-Version")
  {
  }

  lemma UnbrokenContentTypeName()
    ensures Unbroken("Content-Type")
  {
  }

  lemma UnbrokenStandard(e: Email, env: Env, k: nat)
    requires Trusted(env) && Acceptable(e, env) && k < |StandardHeaders(e, env)|
    ensures Unbroken(StandardHeaders(e, env)[k].name) && Unbroken(StandardHeaders(e, env)[k].value)
  {
    hide FormatAddress, ValidateHeader, Unbroken, Quotable;
    UnbrokenNames();
    UnbrokenLongNames();
    UnbrokenMimeVersion();
    var hs := StandardHeaders(e, env);
    if e.replyTo == "" {
      assert hs == [hs[0], hs[1]] + [hs[2], hs[3], hs[4], hs[5]];
    } else {
      assert hs == [hs[0], hs[1]] + [hs[2]] + [hs[3], hs[4], hs[5], hs[6]];
    }
  }

  lemma UnbrokenCustom(keys: seq<string>, custom: map<string, string>, k: nat)
    requires forall x :: x in keys ==> x in custom
    requires forall x :: x in custom ==> ValidateHeader(x, custom[x]).None?
    requires k < |keys|
    ensures Unbroken(CustomHeaders(keys, custom)[k].name) && Unbroken(CustomHeaders(keys, custom)[k].value)
  {
    hide Lower;
    assert keys[k] in keys;
    assert ValidateHeader(keys[k], custom[keys[k]]).None?;
  }

  lemma UnbrokenContentType(e: Email, env: Env)
    requires Trusted(env)
    ensures Unbroken(ContentType(e, env.boundary))
  {
    hide Unbroken;
    UnbrokenPlain();
    UnbrokenHtml();
    UnbrokenMultipart();
    QuotableIsPlain(env.boundary);
    UnbrokenQuote();
    var before := "multipart/alternative; boundary=\"";
    assert Unbroken(env.boundary);
    UnbrokenAppend(before, env.boundary);
    UnbrokenAppend(before + env.boundary, "\"");
  }

  lemma UnbrokenQuote()
    ensures Unbroken("\"")
  {
  }

  lemma UnbrokenPlain()
    ensures Unbroken(PLAIN)
  {
  }

  lemma UnbrokenHtml()
    ensures Unbroken(HTML)
  {
  }

  lemma UnbrokenMultipart()
    ensures Unbroken("multipart/alternative; boundary=\"")
  {
  }

  lemma UnbrokenHeaders(e: Email, env: Env, keys: seq<string>, custom: map<string, string>, k: nat)
    requires Trusted(env) && Acceptable(e, env) && env.custom == Some(custom)
    requires forall x :: x in keys ==> x in custom
    requires k < |AllHeaders(e, env, keys, custom)|
    ensures Unbroken(Line(AllHeaders(e, env, keys, custom)[k]))
  {
    hide FormatAddress, ValidateHeader, ContentType, Unbroken, StandardHeaders, CustomHeaders, Trusted;
    var hs := AllHeaders(e, env, keys, custom);
    var (a, b) := (StandardHeaders(e, env), CustomHeaders(keys, custom));
    if k < |a| {
      assert hs[k] == a[k];
      UnbrokenStandard(e, env, k);
    } else if k < |a| + |b| {
      assert hs[k] == b[k - |a|];
      CustomCount(keys, custom);
      UnbrokenCustom(keys, custom, k - |a|);
    } else {
      UnbrokenContentType(e, env);
      UnbrokenContentTypeName();
    }
    UnbrokenLine(hs[k]);
  }

  lemma CustomCount(keys: seq<string>, custom: map<string, string>)
    requires forall x :: x in keys ==> x in custom
    ensures |CustomHeaders(keys, custom)| == |keys|
  {
  }

  /** Every message that is built has exactly the written header lines before its first empty line,
      and exactly the written body after it. */
  lemma MessageRoundTrip(e: Email, env: Env)
    requires Trusted(env) && Built(e, env).Ok?
    ensures var keys := SortedKeys(env.custom.value.Keys);
      ReadHead(Built(e, env).value)
      == Some(Head(LinesOf(AllHeaders(e, env, keys, env.custom.value)), BodyOf(e, env.boundary)))
  {
    BuildsExactlyAcceptable(e, env);
    var custom := env.custom.value;
    var keys := SortedKeys(custom.Keys);
    var hs := AllHeaders(e, env, keys, custom);
    forall k | 0 <= k < |hs| ensures Unbroken(Line(hs[k])) {
      UnbrokenHeaders(e, env, keys, custom, k);
    }
    HeadRoundTrip(hs, BodyOf(e, env.boundary));
  }

  lemma NamesAreReadable()
    ensures Readable("From") && Readable("To") && Readable("Subject") && Readable("Date") && Readable("Reply-To")
    ensures Readable("Message-ID") && Readable("MIME-Version") && Readable("Content-Type")
  {
  }

  lemma StandardIsReadable(e: Email, env: Env, k: nat)
    requires k < |StandardHeaders(e, env)|
    ensures Readable(StandardHeaders(e, env)[k].name)
  {
    hide FormatAddress, Readable;
    NamesAreReadable();
    var hs := StandardHeaders(e, env);
    if e.replyTo == "" {
      assert hs == [hs[0], hs[1]] + [hs[2], hs[3], hs[4], hs[5]];
    } else {
      assert hs == [hs[0], hs[1]] + [hs[2]] + [hs[3], hs[4], hs[5], hs[6]];
    }
  }

  lemma HeadersReadable(e: Email, env: Env, keys: seq<string>, custom: map<string, string>)
    requires forall x :: x in keys ==> x in custom
    ensures var hs := AllHeaders(e, env, keys, custom);
      && hs != [] && hs[0].name == "From"
      && ((forall k :: 0 <= k < |hs| ==> Readable(hs[k].name)) <==> forall k :: 0 <= k < |keys| ==> Readable(keys[k]))
  {
    hide FormatAddress, ContentType, Readable;
    var (a, b) := (StandardHeaders(e, env), CustomHeaders(keys, custom));
    var hs := AllHeaders(e, env, keys, custom);
    assert a[0].name == "From" && hs[0] == a[0];
    hide StandardHeaders;
    NamesAreReadable();
    forall k | 0 <= k < |keys| ensures hs[|a| + k].name == keys[k] {
      assert hs[|a| + k] == b[k];
    }
    forall k | 0 <= k < |hs| && !(|a| <= k < |a| + |keys|) ensures Readable(hs[k].name) {
      if k < |a| {
        StandardIsReadable(e, env, k);
        assert hs[k] == a[k];
      }
    }
    forall k | 0 <= k < |hs| && (forall x :: 0 <= x < |keys| ==> Readable(keys[x])) ensures Readable(hs[k].name) {
      if |a| <= k < |a| + |keys| {
        assert hs[|a| + (k - |a|)].name == keys[k - |a|];
      }
    }
  }

  /** Reading a built message gives back exactly the header pairs that were written if and only if no
      custom name contains a colon or starts with a blank. */
  lemma HeadersRoundTripExactly(e: Email, env: Env)
    requires Trusted(env) && Built(e, env).Ok?
    ensures var custom := env.custom.value;
      ReadHeaders(Built(e, env).value) == Some(AllHeaders(e, env, SortedKeys(custom.Keys), custom))
      <==> forall name :: name in custom ==> Readable(name)
  {
    hide Trusted, Readable, AllHeaders, ReadHead, Fields, Unfold;
    MessageRoundTrip(e, env);
    var custom := env.custom.value;
    var keys := SortedKeys(custom.Keys);
    HeadersReadable(e, env, keys, custom);
    var hs := AllHeaders(e, env, keys, custom);
    NamesAreReadable();
    FromIsPlain(hs[0].name);
    FieldsRoundTripExactly(hs);
    forall name | name in custom ensures name in keys {
      assert name in custom.Keys;
    }
  }

  // ---------------------------------------------------------------- what a built message says

  /** The lines before the custom ones. */
  predicate SaysFixed(e: Email, env: Env, lines: seq<string>) {
    var r := if e.replyTo == "" then 0 else 1;
    && |lines| == 6 + r
    && lines[0] == "From: " + (if e.fromName == "" then e.from else env.address(e.fromName, e.from))
    && lines[1] == "To: " + (if e.toName == "" then e.to else env.address(e.toName, e.to))
    && (e.replyTo != "" ==> lines[2] == "Reply-To: " + e.replyTo)
    && lines[2 + r] == "Subject: " + env.encode(e.subject)
    && lines[3 + r] == "Date: " + env.date
    && lines[4 + r] == "Message-ID: " + env.messageId
    && lines[5 + r] == "MIME-Version: 1.0"
  }

  /** One line for each custom pair. */
  ghost predicate SaysCustom(custom: map<string, string>, lines: seq<string>) {
    && |lines| == |custom|
    && (forall name :: name in custom ==> name + ": " + custom[name] in lines)
    && (forall k :: 0 <= k < |lines| ==> exists name :: name in custom && lines[k] == name + ": " + custom[name])
  }

  /** The last line and the body, by the forms the email has; two forms are read back below. */
  predicate SaysForm(e: Email, boundary: string, last: string, body: string) {
    && (e.bodyHtml == "" ==> last == "Content-Type: " + "text/plain; charset=utf-8" && body == Crlf(e.bodyText) + "\r\n")
    && (e.bodyHtml != "" && e.bodyText == "" ==>
          last == "Content-Type: " + "text/html; charset=utf-8" && body == Crlf(e.bodyHtml) + "\r\n")
    && (e.bodyHtml != "" && e.bodyText != "" ==>
          last == "Content-Type: " + ("multipart/alternative; boundary=\"" + boundary + "\""))
  }

  /** The header lines and the body of an email's message, as they must read. */
  ghost predicate SaysEmail(e: Email, env: Env, lines: seq<string>, body: string) {
    var fixed := if e.replyTo == "" then 6 else 7;
    && |lines| > fixed && env.custom.Some?
    && SaysFixed(e, env, lines[..fixed])
    && SaysCustom(env.custom.value, lines[fixed..|lines| - 1])
    && SaysForm(e, env.boundary, lines[|lines| - 1], body)
  }

  lemma LineText(h: Header, name: string, start: string)
    requires h.name == name && start == name + ": "
    ensures Line(h) == start + h.value
  {
  }

  lemma StandardLines(e: Email, env: Env)
    ensures SaysFixed(e, env, LinesOf(StandardHeaders(e, env)))
  {
    var (hs, r) := (StandardHeaders(e, env), if e.replyTo == "" then 0 else 1);
    hide Line;
    LineText(hs[0], "From", "From: ");
    LineText(hs[1], "To", "To: ");
    if r == 1 {
      LineText(hs[2], "Reply-To", "Reply-To: ");
    }
    LineText(hs[2 + r], "Subject", "Subject: ");
    LineText(hs[3 + r], "Date", "Date: ");
    LineText(hs[4 + r], "Message-ID", "Message-ID: ");
    LineText(hs[5 + r], "MIME-Version", "MIME-Version: ");
    assert "MIME-Version: " + "1.0" == "MIME-Version: 1.0";
  }

  lemma {:induction false} SortedSize(keys: seq<string>, all: set<string>)
    requires Sorted(keys) && forall k :: k in keys <==> k in all
    ensures |keys| == |all|
  {
    if keys == [] {
      assert all == {};
    } else {
      var (rest, last) := (keys[..|keys| - 1], keys[|keys| - 1]);
      assert keys == rest + [last];
      assert last !in rest by {
        LessIrreflexive(last);
      }
      SortedSize(rest, all - {last});
    }
  }

  lemma CustomLines(keys: seq<string>, custom: map<string, string>)
    requires keys == SortedKeys(custom.Keys)
    ensures SaysCustom(custom, LinesOf(CustomHeaders(keys, custom)))
  {
    SortedSize(keys, custom.Keys);
    assert |custom.Keys| == |custom|;
    var ls := LinesOf(CustomHeaders(keys, custom));
    forall name | name in custom ensures name + ": " + custom[name] in ls {
      assert name in keys;
      var k :| 0 <= k < |keys| && keys[k] == name;
      assert ls[k] == name + ": " + custom[name];
    }
    forall k | 0 <= k < |ls| ensures exists name :: name in custom && ls[k] == name + ": " + custom[name] {
      assert keys[k] in keys && ls[k] == keys[k] + ": " + custom[keys[k]];
    }
  }

  lemma LastLine(e: Email, env: Env)
    ensures SaysForm(e, env.boundary, Line(Header("Content-Type", ContentType(e, env.boundary))), BodyOf(e, env.boundary))
  {
    var h := Header("Content-Type", ContentType(e, env.boundary));
    hide Line, Crlf, Framed;
    LineText(h, "Content-Type", "Content-Type: ");
  }

  lemma LinesOfParts(a: seq<Header>, b: seq<Header>, h: Header)
    ensures LinesOf(a + b + [h]) == LinesOf(a) + LinesOf(b) + [Line(h)]
  {
  }

  /** Every message that is built reads as its email says: each header with its own value in its own
      place, every custom pair, and the body of the one form there is. */
  lemma BuiltSaysEmail(e: Email, env: Env)
    requires Trusted(env) && Built(e, env).Ok?
    ensures var head := ReadHead(Built(e, env).value);
      head.Some? && SaysEmail(e, env, head.value.lines, head.value.body)
  {
    hide ReadHead, Built, LinesOf, SaysEmail, Trusted, BodyOf;
    MessageRoundTrip(e, env);
    BuiltHasHeaders(e, env);
    var custom := env.custom.value;
    LinesOfParts(StandardHeaders(e, env), CustomHeaders(SortedKeys(custom.Keys), custom),
                 Header("Content-Type", ContentType(e, env.boundary)));
    LinesSay(e, env, custom);
  }

  lemma LinesSay(e: Email, env: Env, custom: map<string, string>)
    requires env.custom == Some(custom)
    ensures var (keys, h) := (SortedKeys(custom.Keys), Header("Content-Type", ContentType(e, env.boundary)));
      SaysEmail(e, env, LinesOf(StandardHeaders(e, env)) + LinesOf(CustomHeaders(keys, custom)) + [Line(h)], BodyOf(e, env.boundary))
  {
    StandardLines(e, env);
    CustomLines(SortedKeys(custom.Keys), custom);
    LastLine(e, env);
    hide LinesOf, StandardHeaders, CustomHeaders, ContentType, BodyOf, Line;
    Assembled(e, env, LinesOf(StandardHeaders(e, env)), LinesOf(CustomHeaders(SortedKeys(custom.Keys), custom)),
              Line(Header("Content-Type", ContentType(e, env.boundary))), BodyOf(e, env.boundary));
  }

  lemma Assembled(e: Email, env: Env, a: seq<string>, b: seq<string>, last: string, body: string)
    requires env.custom.Some?
    requires SaysFixed(e, env, a) && SaysCustom(env.custom.value, b) && SaysForm(e, env.boundary, last, body)
    ensures SaysEmail(e, env, a + b + [last], body)
  {
    var fixed := if e.replyTo == "" then 6 else 7;
    assert |a| == fixed;
    hide SaysFixed, SaysCustom, SaysForm;
    assert (a + b + [last])[..fixed] == a && (a + b + [last])[fixed..|a + b + [last]| - 1] == b;
  }

  /** Exactly the k-th line has this field name, in any letter case. */
  predicate OnlyField(lines: seq<string>, field: string, k: int) {
    forall m :: 0 <= m < |lines| ==> (Lower(FieldName(lines[m])) == field <==> m == k)
  }

  function PlainNames(r: nat): seq<string>
    requires r <= 1
  {
    ["from", "to"] + (if r == 1 then ["reply-to"] else []) + ["subject", "date", "message-id", "mime-version"]
  }

  lemma LowerNames()
    ensures Lower("From") == "from" && Lower("To") == "to" && Lower("Reply-To") == "reply-to" && Lower("Subject") == "subject"
    ensures Lower("Date") == "date" && Lower("Message-ID") == "message-id" && Lower("MIME-Version") == "mime-version"
    ensures Lower("Content-Type") == "content-type"
  {
  }

  lemma StandardNames(e: Email, env: Env, k: nat)
    requires k < |StandardHeaders(e, env)|
    ensures var r := if e.replyTo == "" then 0 else 1;
      |StandardHeaders(e, env)| == |PlainNames(r)| && Lower(StandardHeaders(e, env)[k].name) == PlainNames(r)[k]
  {
    hide FormatAddress, Lower;
    LowerNames();
  }

  lemma FieldOfLine(h: Header)
    requires ':' !in h.name
    ensures FieldName(Line(h)) == h.name
  {
    NameEndsAtColon(h.name, " " + h.value);
    assert Line(h) == h.name + ":" + (" " + h.value);
  }

  /** Every field of the builder occurs once, and none of the other reserved ones, as long as no custom
      name has a colon: the check of reserved names keeps custom headers apart from them. */
  lemma EachFieldOnce(e: Email, env: Env)
    requires Trusted(env) && Built(e, env).Ok?
    requires forall name :: name in env.custom.value ==> ':' !in name
    ensures var head := ReadHead(Built(e, env).value);
      && head.Some?
      && var (lines, r) := (head.value.lines, if e.replyTo == "" then 0 else 1);
      && OnlyField(lines, "from", 0) && OnlyField(lines, "to", 1) && OnlyField(lines, "reply-to", if r == 1 then 2 else -1)
      && OnlyField(lines, "subject", 2 + r) && OnlyField(lines, "date", 3 + r) && OnlyField(lines, "message-id", 4 + r)
      && OnlyField(lines, "mime-version", 5 + r) && OnlyField(lines, "content-type", |lines| - 1)
      && OnlyField(lines, "cc", -1) && OnlyField(lines, "bcc", -1) && OnlyField(lines, "dkim-signature", -1)
  {
    hide ReadHead, Built, AllHeaders, NamedInOrder, OnlyField, Trusted;
    MessageRoundTrip(e, env);
    BuildsExactlyAcceptable(e, env);
    var r := if e.replyTo == "" then 0 else 1;
    NamesInOrder(e, env, env.custom.value);
    var lines := LinesOf(AllHeaders(e, env, SortedKeys(env.custom.value.Keys), env.custom.value));
    hide LinesOf;
    OnlyAddresses(lines, r);
    OnlyTexts(lines, r);
    OnlyMime(lines, r);
    OnlyUnwritten(lines, r);
  }

  lemma NamesInOrder(e: Email, env: Env, custom: map<string, string>)
    requires Acceptable(e, env) && env.custom == Some(custom) && forall name :: name in custom ==> ':' !in name
    ensures NamedInOrder(LinesOf(AllHeaders(e, env, SortedKeys(custom.Keys), custom)), if e.replyTo == "" then 0 else 1)
  {
    var keys := SortedKeys(custom.Keys);
    HeaderCount(e, env, keys, custom);
    var hs := AllHeaders(e, env, keys, custom);
    var r := if e.replyTo == "" then 0 else 1;
    hide AllHeaders, Lower, FieldName, Line, Acceptable;
    forall m | 0 <= m < |hs|
      ensures var field := Lower(FieldName(LinesOf(hs)[m]));
        if m < 6 + r then field == PlainNames(r)[m] else if m == |hs| - 1 then field == "content-type" else field !in RESERVED
    {
      FieldAt(e, env, keys, custom, m);
    }
  }

  lemma HeaderCount(e: Email, env: Env, keys: seq<string>, custom: map<string, string>)
    requires forall x :: x in keys ==> x in custom
    ensures |AllHeaders(e, env, keys, custom)| == 6 + (if e.replyTo == "" then 0 else 1) + |keys| + 1
  {
    CustomCount(keys, custom);
  }

  lemma FieldAt(e: Email, env: Env, keys: seq<string>, custom: map<string, string>, m: nat)
    requires Acceptable(e, env) && env.custom == Some(custom) && keys == SortedKeys(custom.Keys)
    requires forall name :: name in custom ==> ':' !in name
    requires m < |AllHeaders(e, env, keys, custom)|
    ensures var (hs, r) := (AllHeaders(e, env, keys, custom), if e.replyTo == "" then 0 else 1);
      var field := Lower(FieldName(LinesOf(hs)[m]));
      |PlainNames(r)| == 6 + r && if m < 6 + r then field == PlainNames(r)[m]
      else if m == |hs| - 1 then field == "content-type" else field !in RESERVED
  {
    var (a, b) := (StandardHeaders(e, env), CustomHeaders(keys, custom));
    var (hs, r) := (AllHeaders(e, env, keys, custom), if e.replyTo == "" then 0 else 1);
    CustomCount(keys, custom);
    HeaderCount(e, env, keys, custom);
    assert |a| == 6 + r;
    if m < 6 + r {
      assert hs[m] == a[m];
      StandardIsReadable(e, env, m);
      StandardNames(e, env, m);
    } else if m == |hs| - 1 {
      NamesAreReadable();
      LowerNames();
    } else {
      assert hs[m] == b[m - |a|] && keys[m - |a|] in keys;
      assert ValidateHeader(hs[m].name, custom[hs[m].name]).None?;
    }
    FieldOfLine(hs[m]);
  }

  /** The lines have the builder's field names in its order, and custom lines no reserved one. */
  predicate NamedInOrder(lines: seq<string>, r: nat)
    requires r <= 1
  {
    && |lines| >= 7 + r
    && forall m :: 0 <= m < |lines| ==>
         var field := Lower(FieldName(lines[m]));
         if m < 6 + r then field == PlainNames(r)[m] else if m == |lines| - 1 then field == "content-type" else field !in RESERVED
  }

  lemma OnlyAt(lines: seq<string>, r: nat, field: string, k: int)
    requires r <= 1 && NamedInOrder(lines, r) && field in RESERVED
    requires forall m :: 0 <= m < 6 + r ==> (PlainNames(r)[m] == field <==> m == k)
    requires k < 6 + r || k == |lines| - 1
    requires field == "content-type" <==> k == |lines| - 1
    ensures OnlyField(lines, field, k)
  {
    hide Lower, FieldName;
  }

  lemma OnlyAddresses(lines: seq<string>, r: nat)
    requires r <= 1 && NamedInOrder(lines, r)
    ensures OnlyField(lines, "from", 0) && OnlyField(lines, "to", 1) && OnlyField(lines, "reply-to", if r == 1 then 2 else -1)
  {
    hide NamedInOrder, OnlyField;
    EnoughLines(lines, r);
    OnlyAt(lines, r, "from", 0);
    OnlyAt(lines, r, "to", 1);
    OnlyAt(lines, r, "reply-to", if r == 1 then 2 else -1);
  }

  lemma OnlyTexts(lines: seq<string>, r: nat)
    requires r <= 1 && NamedInOrder(lines, r)
    ensures OnlyField(lines, "subject", 2 + r) && OnlyField(lines, "date", 3 + r) && OnlyField(lines, "message-id", 4 + r)
  {
    hide NamedInOrder, OnlyField;
    EnoughLines(lines, r);
    OnlyAt(lines, r, "subject", 2 + r);
    OnlyAt(lines, r, "date", 3 + r);
    OnlyAt(lines, r, "message-id", 4 + r);
  }

  lemma OnlyMime(lines: seq<string>, r: nat)
    requires r <= 1 && NamedInOrder(lines, r)
    ensures OnlyField(lines, "mime-version", 5 + r) && OnlyField(lines, "content-type", |lines| - 1)
  {
    hide NamedInOrder, OnlyField;
    EnoughLines(lines, r);
    OnlyAt(lines, r, "mime-version", 5 + r);
    OnlyAt(lines, r, "content-type", |lines| - 1);
  }

  lemma OnlyUnwritten(lines: seq<string>, r: nat)
    requires r <= 1 && NamedInOrder(lines, r)
    ensures OnlyField(lines, "cc", -1) && OnlyField(lines, "bcc", -1) && OnlyField(lines, "dkim-signature", -1)
  {
    hide NamedInOrder, OnlyField;
    EnoughLines(lines, r);
    OnlyAt(lines, r, "cc", -1);
    OnlyAt(lines, r, "bcc", -1);
    OnlyAt(lines, r, "dkim-signature", -1);
  }

  lemma EnoughLines(lines: seq<string>, r: nat)
    requires r <= 1 && NamedInOrder(lines, r)
    ensures |lines| >= 7 + r
  {
  }

  /** With a colon in its name a custom header can pass for a second "From". */
  lemma ColonNameRepeatsFrom()
    ensures ValidateHeader("From:a", "b") == None && Lower(FieldName(Line(Header("From:a", "b")))) == "from"
  {
    assert Lower("From:a")[4] == ':' && |Lower("From:a")| == 6;
    NameEndsAtColon("From", "a: b");
    assert Line(Header("From:a", "b")) == "From" + ":" + "a: b";
    LowerNames();
  }

  lemma FromIsPlain(name: string)
    requires name == "From"
    ensures !StartsBlank(name)
  {
  }

  /** The header of a part ends in two line ends and does not start with the delimiter, so the part
      contains the delimiter only if the body contains the boundary. */
  lemma PartAvoidsDelimiter(contentType: string, body: string, boundary: string)
    requires Unbroken(contentType) && Unbroken(boundary) && boundary != "" && !Contains(body, boundary)
    ensures !Contains(Part(contentType, body), Delimiter(boundary))
  {
    hide Contains, Crlf;
    var (p, d) := (Part(contentType, body), Delimiter(boundary));
    if Contains(p, d) {
      var i := ContainedAt(p, d);
      var head := "Content-Type: " + contentType;
      UnbrokenContentTypeName();
      UnbrokenAppend("Content-Type", ": ");
      UnbrokenAppend("Content-Type" + ": ", contentType);
      assert "Content-Type" + ": " == "Content-Type: ";
      var n := |head|;
      assert p == head + ("\r\n\r\n" + Crlf(body));
      DelimiterAt(p, d, boundary, i);
      BehindHead(head, Crlf(body), i);
      var at := i + 4 - (n + 4);
      assert p[i + 4..] == Crlf(body)[at..];
      ContainsAt(Crlf(body), at, boundary);
      CrlfAddsNone(body, boundary);
    }
  }

  lemma DelimiterAt(p: string, d: string, boundary: string, i: nat)
    requires d == Delimiter(boundary) && i + |d| <= |p| && d <= p[i..]
    ensures i + 4 <= |p| && p[i] == '\r' && p[i + 1] == '\n' && p[i + 2] == '-' && boundary <= p[i + 4..]
  {
    assert p[i..][0] == d[0] && p[i..][1] == d[1] && p[i..][2] == d[2];
    assert p[i..][4..] == p[i + 4..] && d[4..] == boundary;
    assert p[i..][..|d|] == d;
    assert p[i + 4..][..|boundary|] == p[i..][..|d|][4..];
  }

  lemma BehindHead(head: string, body: string, i: nat)
    requires Unbroken(head)
    requires var p := head + ("\r\n\r\n" + body); i + 2 < |p| && p[i] == '\r' && p[i + 2] == '-'
    ensures i >= |head| + 2
  {
    var p := head + ("\r\n\r\n" + body);
    assert forall k :: 0 <= k < |head| ==> p[k] == head[k];
    assert p[|head| + 1] == '\n' && p[|head| + 2] == '\r';
  }

  /** A part gives back its content type and the body with normalised line endings. */
  lemma PartRoundTrip(contentType: string, body: string)
    requires Unbroken(contentType)
    ensures ReadHead(Part(contentType, body)) == Some(Head(["Content-Type: " + contentType], Crlf(body)))
  {
    var h := Header("Content-Type", contentType);
    UnbrokenLine(h);
    HeadRoundTrip([h], Crlf(body));
    assert Print([h]) == Line(h) + CRLF by {
      assert [h][..0] == [];
      assert "" + Line(h) + CRLF == Line(h) + CRLF;
    }
    assert Line(h) == "Content-Type: " + contentType;
    assert Message([h], Crlf(body)) == Part(contentType, body);
    assert LinesOf([h]) == ["Content-Type: " + contentType];
  }

  lemma BoundaryRoundTrip(env: Env, e: Email)
    requires Trusted(env) && IsMultipart(e)
    ensures BoundaryOf(Line(Header("Content-Type", ContentType(e, env.boundary)))) == Some(env.boundary)
  {
    QuotableIsPlain(env.boundary);
    var pattern, quote := "boundary=\"", "\"";
    var before, after := "Content-Type: multipart/alternative; ", env.boundary + quote;
    ContentTypeLine(env.boundary, e);
    NoB();
    CutFirstChar(before, pattern, after);
    CutFirstChar(env.boundary, quote, "");
    assert env.boundary + quote + "" == after;
  }

  lemma NoB()
    ensures 'b' !in "Content-Type: multipart/alternative; "
  {
  }

  lemma ContentTypeLine(boundary: string, e: Email)
    requires IsMultipart(e)
    ensures Line(Header("Content-Type", ContentType(e, boundary)))
         == "Content-Type: multipart/alternative; " + "boundary=\"" + (boundary + "\"")
  {
    var p, q, r := "Content-Type: ", "multipart/alternative; ", "boundary=\"";
    assert "Content-Type" + ": " == p && "multipart/alternative; boundary=\"" == q + r;
    Regroup(p, q, r, boundary, "\"");
    assert p + q == "Content-Type: multipart/alternative; ";
  }

  lemma Regroup(p: string, q: string, r: string, b: string, end: string)
    ensures p + (q + r + b + end) == (p + q) + r + (b + end)
  {
  }

  lemma LastField(lines: seq<string>)
    requires lines != [] && !StartsBlank(lines[|lines| - 1])
    ensures Unfold(lines) != [] && Unfold(lines)[|Unfold(lines)| - 1] == lines[|lines| - 1]
  {
  }

  /** The round trip of a two-part message: the boundary read from the last header field splits the
      body into exactly the text part and the HTML part, in this order, and each part gives back
      its content type and the body with CRLF line endings. It holds for every quotable boundary
      that occurs in neither body. */
  lemma MultipartRoundTrip(e: Email, env: Env)
    requires Trusted(env) && Built(e, env).Ok? && IsMultipart(e)
    requires !Contains(e.bodyText, env.boundary) && !Contains(e.bodyHtml, env.boundary)
    ensures var head := ReadHead(Built(e, env).value);
      && head.Some? && head.value.lines != []
      && var fields := Unfold(head.value.lines);
      && fields != [] && BoundaryOf(fields[|fields| - 1]) == Some(env.boundary)
      && var parts := ReadMultipart(head.value.body, env.boundary);
      && parts.Some? && |parts.value| == 2
      && ReadHead(parts.value[0]) == Some(Head(["Content-Type: " + PLAIN], Crlf(e.bodyText)))
      && ReadHead(parts.value[1]) == Some(Head(["Content-Type: " + HTML], Crlf(e.bodyHtml)))
  {
    hide ReadHead, ReadMultipart, BoundaryOf, Built, Crlf, Unfold, Delimiter, Quotable;
    assert env.boundary != "";
    hide Contains;
    MessageRoundTrip(e, env);
    BuiltHasHeaders(e, env);
    BoundaryRoundTrip(env, e);
    QuotableIsPlain(env.boundary);
    UnbrokenPlain();
    UnbrokenHtml();
    PartAvoidsDelimiter(PLAIN, e.bodyText, env.boundary);
    PartAvoidsDelimiter(HTML, e.bodyHtml, env.boundary);
    FramingRoundTripExactly([Part(PLAIN, e.bodyText), Part(HTML, e.bodyHtml)], env.boundary);
    PartRoundTrip(PLAIN, e.bodyText);
    PartRoundTrip(HTML, e.bodyHtml);
    ContentTypeIsNoContinuation(e, env);
    LastField(ReadHead(Built(e, env).value).value.lines);
  }

  lemma ContentTypeIsNoContinuation(e: Email, env: Env)
    ensures !StartsBlank(Line(Header("Content-Type", ContentType(e, env.boundary))))
  {
    var h := Header("Content-Type", ContentType(e, env.boundary));
    LineStartsBlank(h);
    NamesAreReadable();
    assert h.name[0] == 'C';
  }

  lemma BuiltHasHeaders(e: Email, env: Env)
    requires Built(e, env).Ok?
    ensures env.custom.Some?
  {
  }
}
