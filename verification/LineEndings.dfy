/** Line endings (internal/delivery/message.go): `crlf` gives every line the ending CRLF that a mail
    message needs, whatever mix of LF and CRLF it had. */
module LineEndings {
  import opened Text

  const CRLF := "\r\n"

  /** strings.ReplaceAll: replaces the occurrences from left to right, without overlap. */
  function ReplaceAll(s: string, pattern: string, replacement: string): string
    requires pattern != ""
  {
    if s == "" then ""
    else if pattern <= s then replacement + ReplaceAll(s[|pattern|..], pattern, replacement)
    else [s[0]] + ReplaceAll(s[1..], pattern, replacement)
  }

  function ToLf(s: string): string {
    ReplaceAll(s, "\r\n", "\n")
  }

  function FromLf(s: string): string {
    ReplaceAll(s, "\n", "\r\n")
  }

  function Crlf(s: string): string {
    FromLf(ToLf(s))
  }

  // ---------------------------------------------------------------- equations

  lemma FromLfStep(s: string)
    requires s != ""
    ensures FromLf(s) == (if s[0] == '\n' then "\r\n" else [s[0]]) + FromLf(s[1..])
  {
    assert "\n" <= s <==> s[0] == '\n';
  }

  lemma ToLfStep(s: string)
    requires s != ""
    ensures "\r\n" <= s ==> ToLf(s) == "\n" + ToLf(s[2..])
    ensures !("\r\n" <= s) ==> ToLf(s) == [s[0]] + ToLf(s[1..])
  {
  }

  lemma StartsCrlf(s: string)
    ensures "\r\n" <= s <==> |s| >= 2 && s[0] == '\r' && s[1] == '\n'
  {
    if |s| >= 2 {
      assert s[..2] == [s[0], s[1]];
    }
  }

  /** The second replacement never starts its result with LF. */
  lemma FromLfStart(s: string)
    ensures FromLf(s) != "" ==> FromLf(s)[0] != '\n'
  {
    if s != "" {
      FromLfStep(s);
    }
  }

  // ---------------------------------------------------------------- idempotence

  /** The first replacement is a left inverse of the second. */
  lemma {:induction false} ToLfInvertsFromLf(s: string)
    ensures ToLf(FromLf(s)) == s
  {
    if s != "" {
      var (rest, t) := (FromLf(s[1..]), FromLf(s));
      FromLfStep(s);
      ToLfInvertsFromLf(s[1..]);
      ToLfStep(t);
      StartsCrlf(t);
      FromLfStart(s[1..]);
      if s[0] == '\n' {
        assert t[2..] == rest;
      } else {
        assert t[1..] == rest;
      }
    }
  }

  /** Normalising a second time changes nothing. */
  lemma CrlfIdempotent(s: string)
    ensures Crlf(Crlf(s)) == Crlf(s)
  {
    ToLfInvertsFromLf(ToLf(s));
  }

  /** No bare LF is left: every LF has its CR before it. */
  lemma {:induction false} FromLfPairs(s: string, i: nat)
    requires i < |FromLf(s)| && FromLf(s)[i] == '\n'
    ensures i > 0 && FromLf(s)[i - 1] == '\r'
  {
    FromLfStep(s);
    var head := if s[0] == '\n' then "\r\n" else [s[0]];
    if i >= |head| {
      FromLfPairs(s[1..], i - |head|);
    }
  }

  lemma NoBareLf(s: string, i: nat)
    requires i < |Crlf(s)| && Crlf(s)[i] == '\n'
    ensures i > 0 && Crlf(s)[i - 1] == '\r'
  {
    FromLfPairs(ToLf(s), i);
  }

  // ---------------------------------------------------------------- lines

  /** The lines of a text: an ending is LF or CRLF, and the last line has none. */
  function Lines(s: string): (ls: seq<string>)
    ensures ls != []
  {
    if s == "" then [""]
    else if "\r\n" <= s then [""] + Lines(s[2..])
    else if s[0] == '\n' then [""] + Lines(s[1..])
    else
      var rest := Lines(s[1..]);
      [[s[0]] + rest[0]] + rest[1..]
  }

  function Join(ls: seq<string>, ending: string): string
    requires ls != []
  {
    if |ls| == 1 then ls[0] else ls[0] + ending + Join(ls[1..], ending)
  }

  lemma {:induction false} LinesHaveNoLf(s: string, k: nat)
    requires k < |Lines(s)|
    ensures '\n' !in Lines(s)[k]
  {
    if s != "" {
      if "\r\n" <= s {
        if k > 0 {
          LinesHaveNoLf(s[2..], k - 1);
        }
      } else if s[0] == '\n' {
        if k > 0 {
          LinesHaveNoLf(s[1..], k - 1);
        }
      } else {
        LinesHaveNoLf(s[1..], k);
      }
    }
  }

  lemma JoinLonger(c: char, ls: seq<string>, ending: string)
    requires ls != []
    ensures Join([[c] + ls[0]] + ls[1..], ending) == [c] + Join(ls, ending)
    ensures Join([""] + ls, ending) == ending + Join(ls, ending)
  {
    assert ([[c] + ls[0]] + ls[1..])[1..] == ls[1..];
    assert ([""] + ls)[1..] == ls;
    if |ls| > 1 {
      assert [c] + ls[0] + ending + Join(ls[1..], ending) == [c] + (ls[0] + ending + Join(ls[1..], ending));
    }
  }

  lemma {:induction false} ToLfJoinsLines(s: string)
    ensures ToLf(s) == Join(Lines(s), "\n")
  {
    if s != "" {
      ToLfStep(s);
      if "\r\n" <= s {
        ToLfJoinsLines(s[2..]);
        JoinLonger(s[0], Lines(s[2..]), "\n");
      } else {
        ToLfJoinsLines(s[1..]);
        JoinLonger(s[0], Lines(s[1..]), "\n");
      }
    }
  }

  lemma {:induction false} FromLfAppend(a: string, b: string)
    ensures FromLf(a + b) == FromLf(a) + FromLf(b)
  {
    if a == "" {
      assert a + b == b;
    } else {
      FromLfStep(a);
      FromLfStep(a + b);
      assert (a + b)[1..] == a[1..] + b;
      FromLfAppend(a[1..], b);
    }
  }

  lemma {:induction false} FromLfPlain(a: string)
    requires '\n' !in a
    ensures FromLf(a) == a
  {
    if a != "" {
      FromLfStep(a);
      FromLfPlain(a[1..]);
    }
  }

  lemma {:induction false} FromLfJoin(ls: seq<string>)
    requires ls != [] && forall k :: 0 <= k < |ls| ==> '\n' !in ls[k]
    ensures FromLf(Join(ls, "\n")) == Join(ls, CRLF)
  {
    FromLfPlain(ls[0]);
    if |ls| > 1 {
      FromLfJoin(ls[1..]);
      FromLfAppend(ls[0], "\n" + Join(ls[1..], "\n"));
      assert ls[0] + "\n" + Join(ls[1..], "\n") == ls[0] + ("\n" + Join(ls[1..], "\n"));
      FromLfStep("\n" + Join(ls[1..], "\n"));
    }
  }

  /** The result is exactly the lines of the text, each but the last ended by CRLF. */
  lemma CrlfJoinsLines(s: string)
    ensures Crlf(s) == Join(Lines(s), CRLF)
  {
    ToLfJoinsLines(s);
    forall k | 0 <= k < |Lines(s)| ensures '\n' !in Lines(s)[k] {
      LinesHaveNoLf(s, k);
    }
    FromLfJoin(Lines(s));
  }

  function LineEnd(s: string): nat {
    if s == "" || s[0] == '\n' then 0 else 1 + LineEnd(s[1..])
  }

  lemma {:induction false} LineEndAfter(a: string, b: string)
    requires '\n' !in a
    ensures LineEnd(a + b) == |a| + LineEnd(b)
  {
    if a == "" {
      assert a + b == b;
    } else {
      assert (a + b)[1..] == a[1..] + b;
      LineEndAfter(a[1..], b);
    }
  }

  lemma FirstLine(ls: seq<string>)
    requires ls != [] && '\n' !in ls[0]
    ensures LineEnd(Join(ls, "\n")) == |ls[0]|
  {
    var rest := if |ls| == 1 then "" else "\n" + Join(ls[1..], "\n");
    assert Join(ls, "\n") == ls[0] + rest;
    LineEndAfter(ls[0], rest);
  }

  /** A text determines the LF-free lines it was joined from. */
  lemma {:induction false} JoinDetermines(xs: seq<string>, ys: seq<string>)
    requires xs != [] && ys != [] && Join(xs, "\n") == Join(ys, "\n")
    requires forall k :: 0 <= k < |xs| ==> '\n' !in xs[k]
    requires forall k :: 0 <= k < |ys| ==> '\n' !in ys[k]
    ensures xs == ys
  {
    var s := Join(xs, "\n");
    FirstLine(xs);
    FirstLine(ys);
    assert xs[0] == s[..|xs[0]|] == ys[0];
    assert |s| == |xs[0]| <==> |xs| == 1;
    assert |s| == |ys[0]| <==> |ys| == 1;
    if |xs| > 1 {
      assert Join(xs[1..], "\n") == s[|xs[0]| + 1..] == Join(ys[1..], "\n");
      JoinDetermines(xs[1..], ys[1..]);
      assert xs == [xs[0]] + xs[1..] && ys == [ys[0]] + ys[1..];
    }
  }

  /** Normalising keeps the sequence of lines. */
  lemma CrlfKeepsLines(s: string)
    ensures Lines(Crlf(s)) == Lines(s)
  {
    ToLfJoinsLines(Crlf(s));
    ToLfJoinsLines(s);
    ToLfInvertsFromLf(ToLf(s));
    forall k | 0 <= k < |Lines(s)| ensures '\n' !in Lines(s)[k] {
      LinesHaveNoLf(s, k);
    }
    forall k | 0 <= k < |Lines(Crlf(s))| ensures '\n' !in Lines(Crlf(s))[k] {
      LinesHaveNoLf(Crlf(s), k);
    }
    JoinDetermines(Lines(Crlf(s)), Lines(s));
  }

  // ---------------------------------------------------------------- occurrences

  predicate Contains(s: string, b: string) {
    b <= s || (s != "" && Contains(s[1..], b))
  }

  /** No CR and no LF. */
  predicate Unbroken(s: string) {
    '\r' !in s && '\n' !in s
  }

  lemma PrefixStep(b: string, s: string)
    requires b != "" && s != ""
    ensures b <= s <==> b[0] == s[0] && b[1..] <= s[1..]
  {
    assert b == [b[0]] + b[1..] && s == [s[0]] + s[1..];
  }

  lemma {:induction false} PrefixOfFromLf(s: string, b: string)
    requires Unbroken(b) && b <= FromLf(s)
    ensures b <= s
  {
    if b != "" {
      FromLfStep(s);
      PrefixStep(b, FromLf(s));
      assert FromLf(s)[1..] == FromLf(s[1..]);
      PrefixOfFromLf(s[1..], b[1..]);
      PrefixStep(b, s);
    }
  }

  lemma {:induction false} PrefixOfToLf(s: string, b: string)
    requires Unbroken(b) && b <= ToLf(s)
    ensures b <= s
  {
    if b != "" {
      ToLfStep(s);
      PrefixStep(b, ToLf(s));
      assert ToLf(s)[1..] == ToLf(s[1..]);
      PrefixOfToLf(s[1..], b[1..]);
      PrefixStep(b, s);
    }
  }

  lemma {:induction false} FromLfAddsNone(s: string, b: string)
    requires Unbroken(b) && b != "" && Contains(FromLf(s), b)
    ensures Contains(s, b)
  {
    if b <= FromLf(s) {
      PrefixOfFromLf(s, b);
    } else {
      FromLfStep(s);
      var rest := FromLf(s[1..]);
      if s[0] == '\n' {
        assert FromLf(s)[1..] == "\n" + rest && ("\n" + rest)[1..] == rest;
        PrefixStep(b, "\n" + rest);
      } else {
        assert FromLf(s)[1..] == rest;
      }
      FromLfAddsNone(s[1..], b);
    }
  }

  lemma {:induction false} ToLfAddsNone(s: string, b: string)
    requires Unbroken(b) && b != "" && Contains(ToLf(s), b)
    ensures Contains(s, b)
  {
    if b <= ToLf(s) {
      PrefixOfToLf(s, b);
    } else {
      ToLfStep(s);
      StartsCrlf(s);
      if "\r\n" <= s {
        assert ToLf(s)[1..] == ToLf(s[2..]);
        ToLfAddsNone(s[2..], b);
        assert s[1..][1..] == s[2..];
      } else {
        assert ToLf(s)[1..] == ToLf(s[1..]);
        ToLfAddsNone(s[1..], b);
      }
    }
  }

  /** A text without line breaks that occurs in the result occurs in the original. */
  lemma CrlfAddsNone(s: string, b: string)
    requires Unbroken(b) && b != "" && Contains(Crlf(s), b)
    ensures Contains(s, b)
  {
    FromLfAddsNone(ToLf(s), b);
    ToLfAddsNone(s, b);
  }
}
