/**
 csharp/SopsEncrypt.cs, AgeFile.WrapBase64, and typescript/src/workload.ts, derToPem: two ways
 to break text into 64-character lines, and the readers that undo them.
 */
module LineWrap {
  import opened Wrappers
  import opened BitStrings

  const LINE := 64

  predicate NoNewline(s: string) {
    '\n' !in s
  }

  /** Full lines are terminated, a short last line is not. */
  function Wrapped(s: string): string
  {
    if |s| < LINE then s else s[..LINE] + "\n" + Wrapped(s[LINE..])
  }

  method WrapBase64(base64: string) returns (wrapped: string, lastLineEmpty: bool)
    ensures wrapped == Wrapped(base64)
    ensures lastLineEmpty <==> |base64| % LINE == 0
  {
    hide Wrapped;
    var sb := "";
    var written := 0;
    var i := 0;
    assert base64[0..] == base64;
    while i < |base64|
      invariant 0 <= i == written <= |base64|
      invariant i % LINE == 0 || i == |base64|
      invariant Wrapped(base64) == sb + Wrapped(base64[i..])
    {
      var take := if LINE - written % LINE <= |base64| - i then LINE - written % LINE else |base64| - i;
      WrappedStep(base64[i..], take);
      assert base64[i..][..take] == base64[i..i + take] && base64[i..][take..] == base64[i + take..];
      sb := sb + base64[i..i + take];
      i := i + take;
      written := written + take;
      if written % LINE == 0 {
        sb := sb + "\n";
      }
    }
    WrappedEmpty();
    return sb, written % LINE == 0;
  }

  lemma WrappedStep(rest: string, take: nat)
    requires rest != "" && take == if LINE <= |rest| then LINE else |rest|
    ensures Wrapped(rest) == rest[..take] + (if take == LINE then "\n" else "") + Wrapped(rest[take..])
  {
    assert take < LINE ==> rest[..take] == rest && rest[take..] == "";
  }

  lemma WrappedEmpty()
    ensures Wrapped("") == ""
  {}

  /** Where everything goes: each 64 characters are followed by one newline, and nothing else is added. */
  lemma WrappedLayout(s: string, k: nat)
    ensures |Wrapped(s)| == |s| + |s| / 64
    ensures k < |s| ==> Wrapped(s)[k + k / 64] == s[k]
    ensures k < |s| / 64 ==> Wrapped(s)[65 * k + 64] == '\n'
  {
    hide Wrapped;
    WrappedLength(s);
    if k < |s| { WrappedChar(s, k); }
    if k < |s| / 64 { WrappedNewline(s, k); }
  }

  lemma {:induction false} WrappedLength(s: string)
    ensures |Wrapped(s)| == |s| + |s| / 64
    decreases |s|
  {
    if |s| >= LINE { WrappedLength(s[LINE..]); }
  }

  lemma {:induction false} WrappedChar(s: string, k: nat)
    requires k < |s|
    ensures k + k / 64 < |Wrapped(s)| && Wrapped(s)[k + k / 64] == s[k]
    decreases |s|
  {
    WrappedLength(s);
    if |s| >= LINE {
      WrappedLine(s);
      hide Wrapped;
      if k >= LINE {
        var j := k - LINE;
        WrappedChar(s[LINE..], j);
        assert k + k / 64 == 65 + (j + j / 64);
      }
    }
  }

  lemma {:induction false} WrappedNewline(s: string, k: nat)
    requires k < |s| / 64
    ensures 65 * k + 64 < |Wrapped(s)| && Wrapped(s)[65 * k + 64] == '\n'
    decreases |s|
  {
    WrappedLength(s);
    WrappedLine(s);
    hide Wrapped;
    if k > 0 { WrappedNewline(s[LINE..], k - 1); }
  }

  lemma WrappedLine(s: string)
    requires |s| >= LINE
    ensures Wrapped(s) == s[..LINE] + "\n" + Wrapped(s[LINE..])
  {}

  /** The position of the first newline, or the length when there is none. */
  function LineEnd(t: string): (n: nat)
    ensures n <= |t|
    ensures NoNewline(t[..n])
    ensures n < |t| ==> t[n] == '\n'
  {
    if t == "" || t[0] == '\n' then 0
    else
      assert forall m :: 1 <= m <= |t| ==> t[..m] == [t[0]] + t[1..][..m - 1];
      1 + LineEnd(t[1..])
  }

  lemma {:induction false} LineEndOf(line: string, rest: string)
    requires NoNewline(line)
    ensures LineEnd(line + "\n" + rest) == |line|
  {
    var t := line + "\n" + rest;
    if line != "" {
      assert line[0] in line;
      assert forall c :: c in line[1..] ==> c in line;
      assert t[1..] == line[1..] + "\n" + rest;
      LineEndOf(line[1..], rest);
    }
  }

  // The stanza form: an unconditional newline follows the wrapped text.

  datatype Reading = Reading(content: string, rest: string)

  /** Reads lines up to and including the first one shorter than 64 characters. */
  function ReadStanzaBody(t: string): Option<Reading>
    decreases |t|
  {
    var n := LineEnd(t);
    if n == |t| || n > 64 then None
    else if n < 64 then Some(Reading(t[..n], t[n + 1..]))
    else match ReadStanzaBody(t[n + 1..])
      case None => None
      case Some(r) => Some(Reading(t[..n] + r.content, r.rest))
  }

  lemma ReadStanzaLine(line: string, rest: string)
    requires NoNewline(line) && |line| == LINE
    ensures ReadStanzaBody(line + "\n" + rest)
         == match ReadStanzaBody(rest) case None => None case Some(r) => Some(Reading(line + r.content, r.rest))
  {
    var t := line + "\n" + rest;
    LineEndOf(line, rest);
    hide LineEnd;
    assert t[..LINE] == line && t[LINE + 1..] == rest;
  }

  lemma StanzaLine(line: string, more: string, rest: string)
    requires |line| == LINE
    ensures Wrapped(line + more) + "\n" + rest == line + "\n" + (Wrapped(more) + "\n" + rest)
  {
    var s := line + more;
    assert s[..LINE] == line && s[LINE..] == more;
    hide Wrapped;
    ConcatAssoc(line + "\n", Wrapped(more), "\n");
    ConcatAssoc(line + "\n", Wrapped(more) + "\n", rest);
  }

  lemma {:induction false} StanzaBodyReadsBack(s: string, rest: string)
    requires NoNewline(s)
    ensures ReadStanzaBody(Wrapped(s) + "\n" + rest) == Some(Reading(s, rest))
    decreases |s|
  {
    if |s| < LINE {
      LineEndOf(s, rest);
      var t := s + "\n" + rest;
      assert t[..|s|] == s && t[|s| + 1..] == rest;
    } else {
      var line, more := s[..LINE], s[LINE..];
      assert s == line + more;
      StanzaBodyReadsBack(more, rest);
      StanzaLine(line, more, rest);
      ReadStanzaLine(line, Wrapped(more) + "\n" + rest);
    }
  }

  /** Whatever the reader accepts is the wrapped form of what it returns. */
  lemma {:induction false} StanzaBodyUnique(t: string)
    requires ReadStanzaBody(t).Some?
    ensures var r := ReadStanzaBody(t).value;
            NoNewline(r.content) && t == Wrapped(r.content) + "\n" + r.rest
    decreases |t|
  {
    var n := LineEnd(t);
    var line, rest := t[..n], t[n + 1..];
    assert t == line + "\n" + rest;
    if n == LINE {
      StanzaBodyUnique(rest);
      hide LineEnd;
      var r := ReadStanzaBody(rest).value;
      StanzaLine(line, r.content, r.rest);
    }
  }

  // The armor form: the newline is added only when the last line is not already terminated.

  function ArmorBody(s: string): string
  {
    Wrapped(s) + if |s| % LINE == 0 then "" else "\n"
  }

  /** Reads 64-character lines, the last of which may be shorter but not empty. */
  function ReadArmorBody(t: string): Option<string>
    decreases |t|
  {
    var n := LineEnd(t);
    if t == "" then Some("")
    else if n == |t| || n == 0 || n > 64 || (n < 64 && n + 1 < |t|) then None
    else match ReadArmorBody(t[n + 1..])
      case None => None
      case Some(s) => Some(t[..n] + s)
  }

  /** One line of an armor body. */
  lemma ReadArmorLine(line: string, rest: string)
    requires NoNewline(line) && 0 < |line| <= LINE && (|line| == LINE || rest == "")
    ensures ReadArmorBody(line + "\n" + rest)
         == match ReadArmorBody(rest) case None => None case Some(s) => Some(line + s)
  {
    var t := line + "\n" + rest;
    LineEndOf(line, rest);
    hide LineEnd;
    assert t[..|line|] == line && t[|line| + 1..] == rest;
  }

  lemma ArmorLine(line: string, more: string)
    requires |line| == LINE
    ensures ArmorBody(line + more) == line + "\n" + ArmorBody(more)
  {
    var s := line + more;
    assert s[..LINE] == line && s[LINE..] == more;
    hide Wrapped;
    var end := if |more| % LINE == 0 then "" else "\n";
    ConcatAssoc(line + "\n", Wrapped(more), end);
  }

  lemma {:induction false} ArmorBodyReadsBack(s: string)
    requires NoNewline(s)
    ensures ReadArmorBody(ArmorBody(s)) == Some(s)
    decreases |s|
  {
    if 0 < |s| < LINE {
      ReadArmorLine(s, "");
      assert s + "\n" + "" == ArmorBody(s) && s + "" == s;
    } else if s != "" {
      var line, more := s[..LINE], s[LINE..];
      assert s == line + more;
      ArmorBodyReadsBack(more);
      ArmorLine(line, more);
      ReadArmorLine(line, ArmorBody(more));
    }
  }

  lemma {:induction false} ArmorBodyUnique(t: string)
    requires ReadArmorBody(t).Some?
    ensures var s := ReadArmorBody(t).value;
            NoNewline(s) && t == ArmorBody(s)
    decreases |t|
  {
    if t != "" {
      var n := LineEnd(t);
      var line, rest := t[..n], t[n + 1..];
      ArmorBodyUnique(rest);
      var more := ReadArmorBody(rest).value;
      assert t == line + "\n" + rest;
      hide LineEnd;
      if n < LINE {
        assert line + more == line;
      } else {
        ArmorLine(line, more);
      }
    }
  }

  /** No line is blank. */
  predicate NoBlankLine(t: string) {
    forall i :: 0 <= i < |t| && t[i] == '\n' ==> i > 0 && t[i - 1] != '\n'
  }

  lemma {:induction false} ArmorHasNoBlankLine(s: string)
    requires NoNewline(s)
    ensures NoBlankLine(ArmorBody(s))
    decreases |s|
  {
    if 0 < |s| < LINE {
      NoBlankLinePrepend(s, "");
      assert s + "\n" + "" == ArmorBody(s);
    } else if s != "" {
      var line, more := s[..LINE], s[LINE..];
      assert s == line + more;
      ArmorHasNoBlankLine(more);
      ArmorLine(line, more);
      NoBlankLinePrepend(line, ArmorBody(more));
    }
  }

  lemma NoBlankLinePrepend(line: string, u: string)
    requires line != "" && NoNewline(line) && NoBlankLine(u)
    ensures NoBlankLine(line + "\n" + u)
  {
    var t := line + "\n" + u;
    assert forall i :: 0 <= i < |line| ==> t[i] == line[i] && line[i] in line;
    assert forall i :: |line| + 1 <= i < |t| ==> t[i] == u[i - |line| - 1];
    assert u != "" ==> u[0] != '\n';
  }

  /** The stanza form ends in a blank line exactly when the text fills its lines. */
  lemma {:induction false} StanzaBlankLine(s: string)
    requires NoNewline(s)
    ensures NoBlankLine(Wrapped(s) + "\n") <==> |s| % LINE != 0
  {
    ArmorHasNoBlankLine(s);
    var w := Wrapped(s) + "\n";
    if |s| % LINE != 0 {
      assert w == ArmorBody(s);
    } else {
      WrappedFullEnds(s);
      assert w[|w| - 1] == '\n' && (|w| == 1 || w[|w| - 2] == '\n');
    }
  }

  lemma {:induction false} WrappedFullEnds(s: string)
    requires |s| % LINE == 0
    ensures s == "" ==> Wrapped(s) == ""
    ensures s != "" ==> Wrapped(s) != "" && Wrapped(s)[|Wrapped(s)| - 1] == '\n'
    decreases |s|
  {
    if s != "" {
      WrappedFullEnds(s[LINE..]);
    }
  }

  // derToPem's form: slices joined by newlines, and one more newline at the end.

  function Slices(s: string): seq<string>
  {
    if s == "" then []
    else
      var end := if |s| <= LINE then |s| else LINE;
      [s[..end]] + Slices(s[end..])
  }

  function Join(lines: seq<string>): string
  {
    if lines == [] then "" else if |lines| == 1 then lines[0] else lines[0] + "\n" + Join(lines[1..])
  }

  function PemBody(s: string): string
  {
    Join(Slices(s)) + "\n"
  }

  /** What derToPem writes around a base64 text. */
  function PemText(base64: string, blockLabel: string): string
  {
    "-----BEGIN " + blockLabel + "-----\n" + PemBody(base64) + "-----END " + blockLabel + "-----\n"
  }

  /** The two wrappers agree on every text but the empty one, for which PEM has a blank line. */
  lemma {:induction false} ArmorEqualsPem(s: string)
    ensures ArmorBody(s) == PemBody(s) <==> s != ""
    decreases |s|
  {
    if s == "" {
    } else if |s| <= LINE {
      assert s[..|s|] == s && s[|s|..] == "";
      assert Slices(s) == [s] + [] == [s];
      if |s| == LINE {
        ArmorLine(s, "");
        assert s + "" == s && s + "\n" + "" == s + "\n";
      }
    } else {
      var line, more := s[..LINE], s[LINE..];
      ArmorEqualsPem(more);
      assert s == line + more;
      ArmorLine(line, more);
      var lines := Slices(s);
      assert lines[1..] == Slices(more) && Slices(more) != [];
      assert PemBody(s) == line + "\n" + PemBody(more);
    }
  }

  /** The loop and the template of derToPem, from the base64 text on. */
  method DerToPem(base64: string, blockLabel: string) returns (pem: string)
    ensures pem == PemText(base64, blockLabel)
  {
    hide Slices, Join;
    var lines: seq<string> := [];
    var i := 0;
    assert base64[0..] == base64;
    NoSlices();
    while i < |base64|
      invariant 0 <= i
      invariant Slices(base64) == lines + Slices(base64[if i < |base64| then i else |base64|..])
    {
      var end := if i + LINE <= |base64| then i + LINE else |base64|;
      SliceFrom(base64, i, end, lines);
      lines := lines + [base64[i..end]];
      i := i + LINE;
    }
    assert base64[|base64|..] == "";
    assert Slices(base64) == lines + [] == lines;
    var begin := "-----BEGIN " + blockLabel + "-----\n";
    pem := begin + Join(lines) + "\n" + "-----END " + blockLabel + "-----\n";
    ConcatAssoc(begin, Join(lines), "\n");
  }

  lemma NoSlices()
    ensures Slices("") == []
  {}

  lemma SliceFrom(s: string, i: nat, end: nat, lines: seq<string>)
    requires i < |s| && end == if i + LINE <= |s| then i + LINE else |s|
    ensures lines + Slices(s[i..]) == lines + [s[i..end]] + Slices(s[end..])
  {
    hide Slices;
    SliceStep(s[i..], end - i);
    assert s[i..][..end - i] == s[i..end] && s[i..][end - i..] == s[end..];
    ConcatAssoc(lines, [s[i..end]], Slices(s[end..]));
  }

  lemma SliceStep(rest: string, end: nat)
    requires rest != "" && end == if |rest| <= LINE then |rest| else LINE
    ensures Slices(rest) == [rest[..end]] + Slices(rest[end..])
  {}
}
