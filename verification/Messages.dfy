/** Building a message (internal/delivery/message.go): the header block, and the body in one of
    three forms. The address and subject encoders, the date, the message id, the random boundary
    and the decoded custom headers come from libraries and are parameters. */
module Messages {
  import opened Text
  import opened SortedTexts
  import opened LineEndings
  import opened Emails

  datatype Header = Header(name: string, value: string)

  datatype BuildError =
    | BrokenValue(name: string)
    | BadHeadersJson
    | BrokenName
    | ReservedName(name: string)

  datatype Result<+T> = Ok(value: T) | Err(error: BuildError)

  /** `custom` is headers_json decoded, None if it does not decode. */
  datatype Env = Env(
    address: (string, string) -> string,
    encode: string -> string,
    date: string, messageId: string, boundary: string,
    custom: Option<map<string, string>>)

  /** A boundary that a quoted string shows as it is: printable ASCII without quote and backslash. */
  predicate Quotable(boundary: string) {
    forall k :: 0 <= k < |boundary| ==> ' ' <= boundary[k] <= '~' && boundary[k] != '"' && boundary[k] != '\\'
  }

  /** What is assumed of the libraries: encoded subjects, dates and message ids contain no CR or
      LF, and a boundary is quotable; the program draws 32 hexadecimal digits. */
  ghost predicate Trusted(env: Env) {
    && (forall s :: Unbroken(env.encode(s)))
    && Unbroken(env.date) && Unbroken(env.messageId) && Quotable(env.boundary)
  }

  const RESERVED := {"from", "to", "cc", "bcc", "reply-to", "subject", "date", "message-id",
                     "mime-version", "content-type", "dkim-signature"}

  /** The check of one custom header, shared by the API and the message builder. */
  function ValidateHeader(name: string, value: string): Option<BuildError> {
    if !Unbroken(name) then Some(BrokenName)
    else if Lower(name) in RESERVED then Some(ReservedName(name))
    else if !Unbroken(value) then Some(BrokenValue(name))
    else None
  }

  function FormatAddress(env: Env, name: string, addr: string): string {
    if name == "" then addr else env.address(name, addr)
  }

  // ---------------------------------------------------------------- sorted keys

  /** Collects the keys of a map and sorts them. */
  method SortKeys(custom: map<string, string>) returns (keys: seq<string>)
    ensures keys == SortedKeys(custom.Keys)
  {
    keys := [];
    var left := custom.Keys;
    while left != {}
      invariant left <= custom.Keys && Sorted(keys)
      invariant forall k :: k in keys <==> k in custom.Keys - left
      decreases left
    {
      var k :| k in left;
      InsertKeySorted(keys, k);
      keys := InsertKey(keys, k);
      left := left - {k};
    }
    SortedUnique(keys, SortedKeys(custom.Keys));
  }

  // ---------------------------------------------------------------- what is written

  const PLAIN := "text/plain; charset=utf-8"
  const HTML := "text/html; charset=utf-8"

  predicate IsMultipart(e: Email) {
    e.bodyText != "" && e.bodyHtml != ""
  }

  function ContentType(e: Email, boundary: string): string {
    if IsMultipart(e) then "multipart/alternative; boundary=\"" + boundary + "\""
    else if e.bodyHtml != "" then HTML
    else PLAIN
  }

  function CustomHeaders(keys: seq<string>, custom: map<string, string>): seq<Header>
    requires forall k :: k in keys ==> k in custom
  {
    seq(|keys|, i requires 0 <= i < |keys| => assert keys[i] in keys; Header(keys[i], custom[keys[i]]))
  }

  function StandardHeaders(e: Email, env: Env): seq<Header> {
    [Header("From", FormatAddress(env, e.fromName, e.from)), Header("To", FormatAddress(env, e.toName, e.to))]
    + (if e.replyTo != "" then [Header("Reply-To", e.replyTo)] else [])
    + [Header("Subject", env.encode(e.subject)), Header("Date", env.date),
       Header("Message-ID", env.messageId), Header("MIME-Version", "1.0")]
  }

  function AllHeaders(e: Email, env: Env, keys: seq<string>, custom: map<string, string>): seq<Header>
    requires forall k :: k in keys ==> k in custom
  {
    StandardHeaders(e, env) + CustomHeaders(keys, custom) + [Header("Content-Type", ContentType(e, env.boundary))]
  }

  function Line(h: Header): string {
    h.name + ": " + h.value
  }

  function Print(hs: seq<Header>): string {
    if hs == [] then "" else Print(hs[..|hs| - 1]) + Line(hs[|hs| - 1]) + CRLF
  }

  function Part(contentType: string, body: string): string {
    "Content-Type: " + contentType + CRLF + CRLF + Crlf(body)
  }

  function Delimited(part: string, boundary: string): string {
    "--" + boundary + CRLF + part + CRLF
  }

  /** Parts in multipart framing: a delimiter line before each, a closing delimiter at the end. */
  function Framed(parts: seq<string>, boundary: string): string {
    if parts == [] then "--" + boundary + "--" + CRLF
    else Delimited(parts[0], boundary) + Framed(parts[1..], boundary)
  }

  function BodyOf(e: Email, boundary: string): string {
    if IsMultipart(e) then Framed([Part(PLAIN, e.bodyText), Part(HTML, e.bodyHtml)], boundary)
    else if e.bodyHtml != "" then Crlf(e.bodyHtml) + CRLF
    else Crlf(e.bodyText) + CRLF
  }

  function Message(hs: seq<Header>, body: string): string {
    Print(hs) + CRLF + body
  }

  // ---------------------------------------------------------------- what is refused

  /** The first header of the fixed part whose raw value has a CR or LF. */
  function StandardError(e: Email, env: Env): Option<BuildError> {
    if !Unbroken(FormatAddress(env, e.fromName, e.from)) then Some(BrokenValue("From"))
    else if !Unbroken(FormatAddress(env, e.toName, e.to)) then Some(BrokenValue("To"))
    else if !Unbroken(e.replyTo) then Some(BrokenValue("Reply-To"))
    else if !Unbroken(e.subject) then Some(BrokenValue("Subject"))
    else None
  }

  /** The first of the keys whose header is not allowed. */
  function CustomError(keys: seq<string>, custom: map<string, string>): Option<BuildError>
    requires forall k :: k in keys ==> k in custom
  {
    if keys == [] then None
    else
      assert keys[0] in keys;
      var bad := ValidateHeader(keys[0], custom[keys[0]]);
      if bad.Some? then bad else CustomError(keys[1..], custom)
  }

  /** What `BuildMessage` returns. */
  ghost function Built(e: Email, env: Env): Result<string> {
    if StandardError(e, env).Some? then Err(StandardError(e, env).value)
    else if env.custom.None? then Err(BadHeadersJson)
    else
      var custom := env.custom.value;
      var keys := SortedKeys(custom.Keys);
      if CustomError(keys, custom).Some? then Err(CustomError(keys, custom).value)
      else Ok(Message(AllHeaders(e, env, keys, custom), BodyOf(e, env.boundary)))
  }

  /** Everything required of an email for it to be sent at all. */
  ghost predicate Acceptable(e: Email, env: Env) {
    && Unbroken(FormatAddress(env, e.fromName, e.from)) && Unbroken(FormatAddress(env, e.toName, e.to))
    && Unbroken(e.replyTo) && Unbroken(e.subject)
    && env.custom.Some?
    && forall k :: k in env.custom.value ==> ValidateHeader(k, env.custom.value[k]).None?
  }

  lemma {:induction false} CustomErrorExactly(keys: seq<string>, custom: map<string, string>)
    requires forall k :: k in keys ==> k in custom
    ensures CustomError(keys, custom).None? <==> forall k :: k in keys ==> ValidateHeader(k, custom[k]).None?
  {
    if keys != [] {
      assert keys[0] in keys;
      assert keys == [keys[0]] + keys[1..];
      CustomErrorExactly(keys[1..], custom);
    }
  }

  /** A message is built exactly for the acceptable emails. Input that passed the same checks at
      the API therefore never turns out to be unsendable. */
  lemma BuildsExactlyAcceptable(e: Email, env: Env)
    ensures Built(e, env).Ok? <==> Acceptable(e, env)
  {
    hide ValidateHeader, FormatAddress;
    if env.custom.Some? {
      CustomErrorExactly(SortedKeys(env.custom.value.Keys), env.custom.value);
    }
  }

  /** A custom header is refused exactly for a line break in its name or value, or a name that the
      builder or the signer writes itself, in any letter case. */
  lemma RefusedExactly(name: string, value: string)
    ensures ValidateHeader(name, value).None? <==>
      && '\r' !in name && '\n' !in name && '\r' !in value && '\n' !in value
      && Lower(name) !in {"from", "to", "cc", "bcc", "reply-to", "subject", "date", "message-id",
                          "mime-version", "content-type", "dkim-signature"}
  {
    hide Lower;
  }

  /** The error of a refused email is that of the first check that fails: the raw values of the four
      standard headers in their order, and then the custom headers. */
  lemma StandardErrorsFirst(e: Email, env: Env)
    ensures var (from, to) := (FormatAddress(env, e.fromName, e.from), FormatAddress(env, e.toName, e.to));
      var r := Built(e, env);
      && (!Unbroken(from) ==> r == Err(BrokenValue("From")))
      && (Unbroken(from) && !Unbroken(to) ==> r == Err(BrokenValue("To")))
      && (Unbroken(from) && Unbroken(to) && !Unbroken(e.replyTo) ==> r == Err(BrokenValue("Reply-To")))
      && (Unbroken(from) && Unbroken(to) && Unbroken(e.replyTo) && !Unbroken(e.subject) ==> r == Err(BrokenValue("Subject")))
  {
    hide FormatAddress, Unbroken, Message, CustomError, AllHeaders, BodyOf;
  }

  /** Of the custom headers the decoding is checked first, and then one after the other in the order of
      their names. */
  lemma CustomErrorsInOrder(e: Email, env: Env)
    requires Unbroken(FormatAddress(env, e.fromName, e.from)) && Unbroken(FormatAddress(env, e.toName, e.to))
    requires Unbroken(e.replyTo) && Unbroken(e.subject)
    ensures env.custom.None? <==> Built(e, env) == Err(BadHeadersJson)
    ensures Built(e, env).Err? && env.custom.Some? ==> exists name :: FirstRefused(env.custom.value, name, Built(e, env).error)
  {
    hide ValidateHeader, FormatAddress, Unbroken, Message, CustomError, AllHeaders, BodyOf;
    if env.custom.Some? {
      var keys := SortedKeys(env.custom.value.Keys);
      if CustomError(keys, env.custom.value).Some? {
        var name := FirstOfKeys(keys, env.custom.value);
        assert forall other :: other in env.custom.value ==> other in keys;
        assert FirstRefused(env.custom.value, name, Built(e, env).error);
      }
      NotJson(keys, env.custom.value);
    }
  }

  /** This custom header is refused with this error, and every one with a smaller name is not. */
  ghost predicate FirstRefused(custom: map<string, string>, name: string, error: BuildError) {
    && name in custom && ValidateHeader(name, custom[name]) == Some(error)
    && forall other :: other in custom && Less(other, name) ==> ValidateHeader(other, custom[other]).None?
  }

  lemma {:induction false} FirstOfKeys(keys: seq<string>, custom: map<string, string>) returns (name: string)
    requires Sorted(keys) && (forall k :: k in keys ==> k in custom) && CustomError(keys, custom).Some?
    ensures name in keys && ValidateHeader(name, custom[name]) == CustomError(keys, custom)
    ensures forall other :: other in keys && Less(other, name) ==> ValidateHeader(other, custom[other]).None?
  {
    hide ValidateHeader;
    assert keys[0] in keys;
    if ValidateHeader(keys[0], custom[keys[0]]).Some? {
      name := keys[0];
      forall other | other in keys && Less(other, name) ensures false {
        var i :| 0 <= i < |keys| && keys[i] == other;
        NotBothLess(other, name);
      }
    } else {
      assert keys == [keys[0]] + keys[1..];
      name := FirstOfKeys(keys[1..], custom);
    }
  }

  lemma NotBothLess(a: string, b: string)
    requires Less(a, b)
    ensures a != b && !Less(b, a)
  {
    LessIrreflexive(a);
    if Less(b, a) {
      LessTransitive(a, b, a);
    }
  }

  lemma {:induction false} NotJson(keys: seq<string>, custom: map<string, string>)
    requires forall k :: k in keys ==> k in custom
    ensures CustomError(keys, custom) != Some(BadHeadersJson)
  {
    if keys != [] {
      assert keys[0] in keys;
      assert keys == [keys[0]] + keys[1..];
      NotJson(keys[1..], custom);
    }
  }

  // ---------------------------------------------------------------- the builder

  lemma {:induction false} PrintSnoc(hs: seq<Header>, h: Header)
    ensures Print(hs + [h]) == Print(hs) + Line(h) + CRLF
  {
    assert (hs + [h])[..|hs|] == hs;
  }

  lemma {:induction false} PrintAppend(a: seq<Header>, b: seq<Header>)
    ensures Print(a + b) == Print(a) + Print(b)
  {
    if b == [] {
      assert a + b == a;
    } else {
      var (rest, h) := (b[..|b| - 1], b[|b| - 1]);
      assert a + b == (a + rest) + [h];
      PrintSnoc(a + rest, h);
      PrintAppend(a, rest);
      assert Print(a) + Print(rest) + Line(h) + CRLF == Print(a) + (Print(rest) + Line(h) + CRLF);
    }
  }

  /** Writes headers one after the other into the builder. */
  method WriteHeaders(b: string, hs: seq<Header>) returns (r: string)
    ensures r == b + Print(hs)
  {
    r := b;
    for i := 0 to |hs|
      invariant r == b + Print(hs[..i])
    {
      PrintSnoc(hs[..i], hs[i]);
      assert hs[..i + 1] == hs[..i] + [hs[i]];
      r := r + hs[i].name + ": " + hs[i].value + CRLF;
      assert r == b + (Print(hs[..i]) + Line(hs[i]) + CRLF);
    }
    assert hs[..|hs|] == hs;
  }

  /** The checks of the custom headers, in key order. */
  method CheckCustom(keys: seq<string>, custom: map<string, string>) returns (bad: Option<BuildError>)
    requires forall k :: k in keys ==> k in custom
    ensures bad == CustomError(keys, custom)
  {
    hide ValidateHeader;
    for i := 0 to |keys|
      invariant CustomError(keys, custom) == CustomError(keys[i..], custom)
    {
      assert keys[i] in keys;
      assert keys[i..][0] == keys[i] && keys[i..][1..] == keys[i + 1..];
      bad := ValidateHeader(keys[i], custom[keys[i]]);
      if bad.Some? {
        return;
      }
    }
    bad := None;
  }

  /** Writes the body behind the header block and its empty line. */
  method WriteBody(b: string, e: Email, boundary: string) returns (r: string)
    ensures r == b + BodyOf(e, boundary)
  {
    if IsMultipart(e) {
      var text := Delimited(Part(PLAIN, e.bodyText), boundary);
      var html := Delimited(Part(HTML, e.bodyHtml), boundary);
      FramedTwo(Part(PLAIN, e.bodyText), Part(HTML, e.bodyHtml), boundary);
      r := b + (text + html + ("--" + boundary + "--" + CRLF));
    } else if e.bodyHtml != "" {
      r := b + (Crlf(e.bodyHtml) + CRLF);
    } else {
      r := b + (Crlf(e.bodyText) + CRLF);
    }
  }

  lemma FramedTwo(x: string, y: string, boundary: string)
    ensures Framed([x, y], boundary)
         == Delimited(x, boundary) + Delimited(y, boundary) + ("--" + boundary + "--" + CRLF)
  {
    hide Delimited;
    var end := "--" + boundary + "--" + CRLF;
    assert [x, y][1..] == [y] && [y][1..] == [];
    assert Framed([y], boundary) == Delimited(y, boundary) + end;
    assert Delimited(x, boundary) + (Delimited(y, boundary) + end) == Delimited(x, boundary) + Delimited(y, boundary) + end;
  }

  /** The writes, in the order of the header block, an empty line and the body. */
  method WriteMessage(e: Email, env: Env, keys: seq<string>, custom: map<string, string>) returns (b: string)
    requires forall k :: k in keys ==> k in custom
    ensures b == Message(AllHeaders(e, env, keys, custom), BodyOf(e, env.boundary))
  {
    hide BodyOf, StandardHeaders, CustomHeaders, ContentType, Print;
    var standard, own := StandardHeaders(e, env), CustomHeaders(keys, custom);
    var last := [Header("Content-Type", ContentType(e, env.boundary))];
    b := WriteHeaders("", standard);
    b := WriteHeaders(b, own);
    b := WriteHeaders(b, last);
    PrintAppend(standard, own);
    PrintAppend(standard + own, last);
    b := WriteBody(b + CRLF, e, env.boundary);
  }

  /** Builds the message of an email, or refuses it before anything is written. */
  method BuildMessage(e: Email, env: Env) returns (r: Result<string>)
    ensures r == Built(e, env)
  {
    hide Message, AllHeaders, BodyOf, StandardError, CustomError;
    var bad := StandardError(e, env);
    if bad.Some? {
      return Err(bad.value);
    }
    if env.custom.None? {
      return Err(BadHeadersJson);
    }
    var keys := SortKeys(env.custom.value);
    bad := CheckCustom(keys, env.custom.value);
    if bad.Some? {
      return Err(bad.value);
    }
    var b := WriteMessage(e, env, keys, env.custom.value);
    r := Ok(b);
  }
}
