/** The quote-aware scanners behind the structural fingerprint of a program. They
    are written separately and have to agree on which characters are quoted. */
module QuoteScanners {

  const Quote := '"'
  const Backslash := '\\'

  /** A stretch outside quotes, or a quoted string with its quotation marks; an
      unterminated one reaches to the end of the text. */
  datatype Piece = Plain(text: string) | Quoted(text: string)

  function FirstQuote(s: string): (n: nat)
    ensures n <= |s| && Quote !in s[..n] && (n < |s| ==> s[n] == Quote)
  {
    if s == "" || s[0] == Quote then 0 else
      var n := FirstQuote(s[1..]);
      assert s[..n + 1] == [s[0]] + s[1..][..n];
      n + 1
  }

  /** How much of `s`, read inside a quoted string, still belongs to it. */
  function BodyLength(s: string, escaped: bool): (n: nat)
    ensures n <= |s|
  {
    if s == "" then 0
    else if escaped then 1 + BodyLength(s[1..], false)
    else if s[0] == Backslash then 1 + BodyLength(s[1..], true)
    else if s[0] == Quote then 1
    else 1 + BodyLength(s[1..], false)
  }

  /** Backslashes right before position `k`. */
  function Backslashes(s: string, k: nat): nat
    requires k <= |s|
  {
    if k == 0 || s[k - 1] != Backslash then 0 else 1 + Backslashes(s, k - 1)
  }

  /** A quotation mark ends the string unless a backslash escapes it. */
  predicate EndsString(s: string, k: nat)
    requires k < |s|
  {
    s[k] == Quote && Backslashes(s, k) % 2 == 0
  }

  lemma {:induction false} BodyFrom(s: string, j: nat, escaped: bool)
    requires j <= |s| && (escaped <==> Backslashes(s, j) % 2 == 1)
    ensures var n := BodyLength(s[j..], escaped);
            && (forall k :: j <= k < j + n - 1 ==> !EndsString(s, k))
            && (j + n < |s| ==> n > 0 && EndsString(s, j + n - 1))
    decreases |s| - j
  {
    if j < |s| {
      assert s[j..][0] == s[j] && s[j..][1..] == s[j + 1..];
      if s[j] == Backslash {
        BodyFrom(s, j + 1, !escaped);
      } else if escaped || s[j] != Quote {
        BodyFrom(s, j + 1, false);
      }
    }
  }

  /** A quoted string ends with its first unescaped quotation mark, or with the text. */
  lemma BodyLengthMeans(s: string)
    ensures var n := BodyLength(s, false);
            && (forall k :: 0 <= k < n - 1 ==> !EndsString(s, k))
            && (n < |s| ==> n > 0 && EndsString(s, n - 1))
  {
    BodyFrom(s, 0, false);
    assert s[0..] == s;
  }

  function Pieces(s: string): seq<Piece>
    decreases |s|
  {
    var a := FirstQuote(s);
    if a == |s| then [Plain(s)]
    else
      var b := a + 1 + BodyLength(s[a + 1..], false);
      [Plain(s[..a]), Quoted(s[a..b])] + Pieces(s[b..])
  }

  /** Put the pieces together again, with `f` applied outside quotes. */
  function Join(pieces: seq<Piece>, f: string -> string): string {
    if pieces == [] then "" else
      (match pieces[0]
       case Plain(t) => f(t)
       case Quoted(t) => t) + Join(pieces[1..], f)
  }

  lemma JoinTwo(t: string, q: string, rest: seq<Piece>, f: string -> string)
    ensures Join([Plain(t), Quoted(q)] + rest, f) == f(t) + q + Join(rest, f)
  {
    var all := [Plain(t), Quoted(q)] + rest;
    assert all[1..][1..] == rest;
    assert all[1..][0] == Quoted(q);
    assert Join(all, f) == f(t) + (q + Join(rest, f));
    assert f(t) + (q + Join(rest, f)) == f(t) + q + Join(rest, f);
  }

  // ----------------------------------------------------------- the scanners

  /** A character that is no quotation mark prolongs the segment; a quotation mark ends it. */
  lemma FirstQuoteFrom(text: string, index: nat)
    requires index < |text|
    ensures FirstQuote(text[index..]) == if text[index] == Quote then 0 else 1 + FirstQuote(text[index + 1..])
  {
    assert text[index..][1..] == text[index + 1..];
  }

  lemma NextPieces(text: string, start: nat, quoteStart: nat, index: nat)
    requires start <= quoteStart < index <= |text| && FirstQuote(text[start..]) == quoteStart - start
    requires index == quoteStart + 1 + BodyLength(text[quoteStart + 1..], false)
    ensures Pieces(text[start..]) ==
            [Plain(text[start..quoteStart]), Quoted(text[quoteStart..index])] + Pieces(text[index..])
  {
    hide Pieces, BodyLength, FirstQuote;
    var rest, a, b := text[start..], quoteStart - start, index - start;
    assert rest[..a] == text[start..quoteStart] && rest[a..b] == text[quoteStart..index];
    assert rest[a + 1..] == text[quoteStart + 1..] && rest[b..] == text[index..];
    FirstPieces(rest, a, b);
  }

  lemma FirstPieces(s: string, a: nat, b: nat)
    requires a == FirstQuote(s) < |s| && b == a + 1 + BodyLength(s[a + 1..], false)
    ensures b <= |s| && Pieces(s) == [Plain(s[..a]), Quoted(s[a..b])] + Pieces(s[b..])
  {
    hide BodyLength, FirstQuote;
  }

  lemma LastPiece(s: string)
    requires FirstQuote(s) == |s|
    ensures Pieces(s) == [Plain(s)]
  {
  }

  /** `_rewrite_unquoted`. */
  method RewriteUnquoted(text: string, rewrite: string -> string) returns (r: string)
    ensures r == Join(Pieces(text), rewrite)
  {
    hide Pieces, FirstQuote, BodyLength, Join;
    r := "";
    var segmentStart, index := 0, 0;
    assert text[0..] == text;
    while index < |text|
      invariant 0 <= segmentStart <= index <= |text|
      invariant Join(Pieces(text), rewrite) == r + Join(Pieces(text[segmentStart..]), rewrite)
      invariant FirstQuote(text[segmentStart..]) == index - segmentStart + FirstQuote(text[index..])
    {
      FirstQuoteFrom(text, index);
      if text[index] != Quote {
        index := index + 1;
        continue;
      }
      r := r + rewrite(text[segmentStart..index]);
      var quoteStart := index;
      index := EndOfQuoted(text, quoteStart);
      r := r + text[quoteStart..index];
      NextPieces(text, segmentStart, quoteStart, index);
      JoinTwo(text[segmentStart..quoteStart], text[quoteStart..index], Pieces(text[index..]), rewrite);
      segmentStart := index;
    }
    NothingLeft(text, index);
    LastPiece(text[segmentStart..]);
    JoinLast(text[segmentStart..], rewrite);
    r := r + rewrite(text[segmentStart..]);
  }

  lemma NothingLeft(text: string, index: nat)
    requires index == |text|
    ensures FirstQuote(text[index..]) == 0
  {
  }

  lemma JoinLast(t: string, f: string -> string)
    ensures Join([Plain(t)], f) == f(t)
  {
    assert Join([Plain(t)], f) == f(t) + Join([], f);
  }

  /** The inner loop of both segment scanners. */
  method EndOfQuoted(text: string, quoteStart: nat) returns (index: nat)
    requires quoteStart < |text| && text[quoteStart] == Quote
    ensures quoteStart < index <= |text| && index == quoteStart + 1 + BodyLength(text[quoteStart + 1..], false)
  {
    index := quoteStart + 1;
    var escaped := false;
    while index < |text|
      invariant quoteStart < index <= |text|
      invariant BodyLength(text[quoteStart + 1..], false) == index - quoteStart - 1 + BodyLength(text[index..], escaped)
    {
      assert text[index..][1..] == text[index + 1..];
      var char_ := text[index];
      index := index + 1;
      if escaped {
        escaped := false;
      } else if char_ == Backslash {
        escaped := true;
      } else if char_ == Quote {
        return;
      }
    }
  }

  /** `_unquoted_text`. */
  method UnquotedText(text: string) returns (r: string)
    ensures r == Outside(text)
  {
    hide Pieces, FirstQuote, BodyLength, Plains, Outside;
    r := "";
    var segmentStart, index := 0, 0;
    assert text[0..] == text;
    while index < |text|
      invariant 0 <= segmentStart <= index <= |text|
      invariant Plains(Pieces(text)) == r + Plains(Pieces(text[segmentStart..]))
      invariant FirstQuote(text[segmentStart..]) == index - segmentStart + FirstQuote(text[index..])
    {
      FirstQuoteFrom(text, index);
      if text[index] != Quote {
        index := index + 1;
        continue;
      }
      r := r + text[segmentStart..index];
      var quoteStart := index;
      index := EndOfQuoted(text, quoteStart);
      NextPieces(text, segmentStart, quoteStart, index);
      PlainsTwo(text[segmentStart..quoteStart], text[quoteStart..index], Pieces(text[index..]));
      segmentStart := index;
    }
    NothingLeft(text, index);
    LastPiece(text[segmentStart..]);
    PlainsLast(text[segmentStart..]);
    r := r + text[segmentStart..];
    UnquotedIsOutside(text);
  }

  function Plains(pieces: seq<Piece>): string {
    if pieces == [] then "" else (if pieces[0].Plain? then pieces[0].text else "") + Plains(pieces[1..])
  }

  lemma PlainsTwo(t: string, q: string, rest: seq<Piece>)
    ensures Plains([Plain(t), Quoted(q)] + rest) == t + Plains(rest)
  {
    var all := [Plain(t), Quoted(q)] + rest;
    assert all[1..][1..] == rest && all[1..][0] == Quoted(q);
    assert Plains(all) == t + ("" + Plains(rest));
  }

  lemma PlainsLast(t: string)
    ensures Plains([Plain(t)]) == t
  {
    assert Plains([Plain(t)]) == t + Plains([]);
  }

  /** `_strip_ir_comment`: the text before the first semicolon outside quotes. */
  method StripIrComment(line: string) returns (r: string)
    ensures r <= line && (|r| < |line| ==> StartsComment(line, |r|))
    ensures forall i :: 0 <= i < |r| ==> !StartsComment(line, i)
  {
    var inString, escaped := false, false;
    for index := 0 to |line|
      invariant ModeAt(line, index) == if !inString then Plainly else if escaped then Escaped else InString
      invariant escaped ==> inString
      invariant forall i :: 0 <= i < index ==> !StartsComment(line, i)
    {
      var char_ := line[index];
      if inString {
        if escaped {
          escaped := false;
        } else if char_ == Backslash {
          escaped := true;
        } else if char_ == Quote {
          inString := false;
        }
        continue;
      }
      if char_ == Quote {
        inString := true;
      } else if char_ == ';' {
        return line[..index];
      }
    }
    return line;
  }

  // ----------------------------------------------------------- one meaning

  /** How a single pass from the left reads a character. */
  datatype Mode = Plainly | InString | Escaped

  function After(m: Mode, c: char): Mode {
    match m
    case Plainly => if c == Quote then InString else Plainly
    case InString => if c == Backslash then Escaped else if c == Quote then Plainly else InString
    case Escaped => InString
  }

  function ModeFrom(m: Mode, s: string, i: nat): Mode
    requires i <= |s|
  {
    if i == 0 then m else After(ModeFrom(m, s, i - 1), s[i - 1])
  }

  function ModeAt(s: string, i: nat): Mode
    requires i <= |s|
  {
    ModeFrom(Plainly, s, i)
  }

  /** A character is quoted when it is read inside a string or opens one. */
  predicate IsQuoted(s: string, i: nat)
    requires i < |s|
  {
    ModeAt(s, i) != Plainly || s[i] == Quote
  }

  predicate StartsComment(s: string, i: nat)
    requires i < |s|
  {
    !IsQuoted(s, i) && s[i] == ';'
  }

  /** The characters of `s` that are not quoted. */
  function OutsideFrom(m: Mode, s: string): string
    decreases |s|
  {
    if s == "" then ""
    else (if m == Plainly && s[0] != Quote then [s[0]] else "") + OutsideFrom(After(m, s[0]), s[1..])
  }

  function Outside(s: string): string {
    OutsideFrom(Plainly, s)
  }

  /** The quoted characters of `s`, read from mode `m`. */
  function MaskFrom(m: Mode, s: string): seq<bool>
    decreases |s|
  {
    if s == "" then [] else [m != Plainly || s[0] == Quote] + MaskFrom(After(m, s[0]), s[1..])
  }

  lemma {:induction false} MaskIsQuoted(s: string, i: nat)
    requires i <= |s|
    ensures |MaskFrom(ModeAt(s, i), s[i..])| == |s| - i
    ensures forall k :: i <= k < |s| ==> MaskFrom(ModeAt(s, i), s[i..])[k - i] == IsQuoted(s, k)
    decreases |s| - i
  {
    if i < |s| {
      MaskIsQuoted(s, i + 1);
      assert s[i..][1..] == s[i + 1..] && s[i..][0] == s[i];
    }
  }

  function Bits(bit: bool, n: nat): (bits: seq<bool>)
    ensures |bits| == n && forall i :: 0 <= i < n ==> bits[i] == bit
  {
    seq(n, _ => bit)
  }

  lemma {:induction false} MaskPlain(a: string, b: string)
    requires Quote !in a
    ensures MaskFrom(Plainly, a + b) == Bits(false, |a|) + MaskFrom(Plainly, b)
  {
    if a == "" {
      assert a + b == b;
    } else {
      MaskPlain(a[1..], b);
      assert (a + b)[1..] == a[1..] + b && (a + b)[0] == a[0];
      assert Bits(false, |a|) == [false] + Bits(false, |a[1..]|);
    }
  }

  lemma {:induction false} MaskBody(s: string, escaped: bool)
    ensures MaskFrom(if escaped then Escaped else InString, s) ==
            Bits(true, BodyLength(s, escaped)) + MaskFrom(Plainly, s[BodyLength(s, escaped)..])
  {
    if s == "" {
    } else if !escaped && s[0] == Quote {
      assert Bits(true, 1) == [true];
    } else {
      var next := !escaped && s[0] == Backslash;
      MaskBody(s[1..], next);
      LongerBody(s, escaped, next);
    }
  }

  lemma LongerBody(s: string, escaped: bool, next: bool)
    requires s != "" && (escaped || s[0] != Quote) && next == (!escaped && s[0] == Backslash)
    ensures var n := BodyLength(s[1..], next);
            && BodyLength(s, escaped) == n + 1 && s[n + 1..] == s[1..][n..]
            && Bits(true, n + 1) == [true] + Bits(true, n)
  {
  }

  function PieceMask(pieces: seq<Piece>): seq<bool> {
    if pieces == [] then [] else Bits(pieces[0].Quoted?, |pieces[0].text|) + PieceMask(pieces[1..])
  }

  lemma PieceMaskTwo(t: string, q: string, rest: seq<Piece>)
    ensures PieceMask([Plain(t), Quoted(q)] + rest) == Bits(false, |t|) + Bits(true, |q|) + PieceMask(rest)
  {
    var all := [Plain(t), Quoted(q)] + rest;
    assert all[1..][1..] == rest && all[1..][0] == Quoted(q);
    assert PieceMask(all) == Bits(false, |t|) + (Bits(true, |q|) + PieceMask(rest));
  }

  lemma {:induction false} MasksAgree(s: string)
    ensures PieceMask(Pieces(s)) == MaskFrom(Plainly, s)
    decreases |s|
  {
    hide BodyLength, MaskFrom, PieceMask, Pieces;
    var a := FirstQuote(s);
    if a == |s| {
      LastPiece(s);
      PlainMask(s);
    } else {
      var body := s[a + 1..];
      var n := BodyLength(body, false);
      FirstPieces(s, a, a + 1 + n);
      MasksAgree(s[a + 1 + n..]);
      PieceMaskTwo(s[..a], s[a..a + 1 + n], Pieces(s[a + 1 + n..]));
      FirstMasks(s, a, n);
    }
  }

  /** What the comment scanner sees up to the end of the first string. */
  lemma FirstMasks(s: string, a: nat, n: nat)
    requires a == FirstQuote(s) < |s| && n == BodyLength(s[a + 1..], false)
    ensures a + 1 + n <= |s|
    ensures MaskFrom(Plainly, s) ==
            Bits(false, a) + (Bits(true, n + 1) + MaskFrom(Plainly, s[a + 1 + n..]))
  {
    hide BodyLength, MaskFrom, Bits, FirstQuote;
    SlicesAround(s, a, n);
    MasksOfParts(s[..a], s[a..], s[a + 1..], n);
  }

  lemma SlicesAround(s: string, a: nat, n: nat)
    requires a < |s| && n <= |s| - (a + 1)
    ensures s == s[..a] + s[a..] && s[a..][1..] == s[a + 1..] && s[a + 1..][n..] == s[a + 1 + n..]
  {
  }

  lemma MasksOfParts(head: string, tail: string, body: string, n: nat)
    requires Quote !in head && tail != "" && tail[0] == Quote && tail[1..] == body && n == BodyLength(body, false)
    ensures MaskFrom(Plainly, head + tail) ==
            Bits(false, |head|) + (Bits(true, n + 1) + MaskFrom(Plainly, body[n..]))
  {
    hide BodyLength, MaskFrom, Bits;
    MaskPlain(head, tail);
    MaskBody(body, false);
    OpeningMask(tail, body, n);
  }

  lemma PlainMask(s: string)
    requires Quote !in s
    ensures PieceMask([Plain(s)]) == MaskFrom(Plainly, s)
  {
    MaskPlain(s, "");
    assert s + "" == s;
    assert PieceMask([Plain(s)]) == Bits(false, |s|) + PieceMask([]);
  }

  lemma OpeningMask(s: string, body: string, n: nat)
    requires s != "" && s[0] == Quote && s[1..] == body && n <= |body|
    requires MaskFrom(InString, body) == Bits(true, n) + MaskFrom(Plainly, body[n..])
    ensures MaskFrom(Plainly, s) == Bits(true, n + 1) + MaskFrom(Plainly, body[n..])
  {
    hide MaskFrom;
    OpeningBit(s);
    assert Bits(true, n + 1) == [true] + Bits(true, n);
    Regrouped([true], Bits(true, n), MaskFrom(Plainly, body[n..]));
  }

  lemma OpeningBit(s: string)
    requires s != "" && s[0] == Quote
    ensures MaskFrom(Plainly, s) == [true] + MaskFrom(InString, s[1..])
  {
  }

  lemma Regrouped<T>(a: seq<T>, b: seq<T>, c: seq<T>)
    ensures a + (b + c) == (a + b) + c
  {
  }

  /** All scanners agree, character by character: a position is inside a quoted
      piece of the segment scanners exactly when the comment scanner, reading from
      the left, takes it for quoted. */
  lemma ScannersAgree(s: string, i: nat)
    requires i < |s|
    ensures |PieceMask(Pieces(s))| == |s| && PieceMask(Pieces(s))[i] == IsQuoted(s, i)
  {
    hide MaskFrom, PieceMask, Pieces, IsQuoted;
    MasksAgree(s);
    MaskIsQuoted(s, 0);
    assert s[0..] == s;
  }

  lemma {:induction false} OutsidePlain(a: string, b: string)
    requires Quote !in a
    ensures OutsideFrom(Plainly, a + b) == a + OutsideFrom(Plainly, b)
  {
    if a == "" {
      assert a + b == b;
    } else {
      OutsidePlain(a[1..], b);
      assert (a + b)[1..] == a[1..] + b && (a + b)[0] == a[0];
      Regrouped([a[0]], a[1..], OutsideFrom(Plainly, b));
      assert a == [a[0]] + a[1..];
    }
  }

  lemma {:induction false} OutsideBody(s: string, escaped: bool)
    ensures OutsideFrom(if escaped then Escaped else InString, s) == OutsideFrom(Plainly, s[BodyLength(s, escaped)..])
  {
    if s != "" {
      var n := BodyLength(s, escaped);
      assert s[n..] == s[1..][n - 1..];
      if escaped {
        OutsideBody(s[1..], false);
      } else if s[0] == Backslash {
        OutsideBody(s[1..], true);
      } else if s[0] != Quote {
        OutsideBody(s[1..], false);
      }
    }
  }

  /** The segment scanners and the single pass agree on what lies outside quotes. */
  lemma {:induction false} UnquotedIsOutside(s: string)
    ensures Plains(Pieces(s)) == Outside(s)
    decreases |s|
  {
    hide BodyLength, OutsideFrom, Plains, Pieces;
    var a := FirstQuote(s);
    if a == |s| {
      OutsidePlain(s, "");
      assert s + "" == s && s[..a] == s;
      LastPiece(s);
      PlainsLast(s);
      NothingOutside();
    } else {
      hide FirstQuote;
      var body := s[a + 1..];
      var b := a + 1 + BodyLength(body, false);
      FirstPieces(s, a, b);
      UnquotedIsOutside(s[b..]);
      PlainsTwo(s[..a], s[a..b], Pieces(s[b..]));
      OutsidePlain(s[..a], s[a..]);
      CutTwice(s, a, b);
      OutsideBody(body, false);
      StringOpens(s[a..], body);
    }
  }

  lemma NothingOutside()
    ensures OutsideFrom(Plainly, "") == ""
  {
  }

  lemma StringOpens(s: string, body: string)
    requires s != "" && s[0] == Quote && s[1..] == body
    ensures OutsideFrom(Plainly, s) == OutsideFrom(InString, body)
  {
    assert OutsideFrom(Plainly, s) == "" + OutsideFrom(InString, body);
  }

  // -------------------------------------------------------------- rewriting

  /** Rewriting nothing changes nothing. */
  lemma {:induction false} IdentityRewriting(s: string)
    ensures Join(Pieces(s), (t: string) => t) == s
    decreases |s|
  {
    hide Pieces, Join, BodyLength, FirstQuote;
    var f := (t: string) => t;
    var a := FirstQuote(s);
    if a == |s| {
      LastPiece(s);
      JoinLast(s, f);
    } else {
      var b := a + 1 + BodyLength(s[a + 1..], false);
      FirstPieces(s, a, b);
      IdentityRewriting(s[b..]);
      JoinTwo(s[..a], s[a..b], Pieces(s[b..]), f);
      CutTwice(s, a, b);
    }
  }

  lemma CutTwice(s: string, a: nat, b: nat)
    requires a < b <= |s|
    ensures s == s[..a] + s[a..b] + s[b..] == s[..a] + s[a..]
    ensures s[a..][0] == s[a] && s[a..][1..] == s[a + 1..] && s[b..] == s[a + 1..][b - a - 1..]
  {
  }

  function Mapped(pieces: seq<Piece>, f: string -> string): seq<Piece> {
    if pieces == [] then [] else
      [if pieces[0].Plain? then Plain(f(pieces[0].text)) else pieces[0]] + Mapped(pieces[1..], f)
  }

  /** The mode in which the text ends. */
  function EndMode(m: Mode, s: string): Mode
    decreases |s|
  {
    if s == "" then m else EndMode(After(m, s[0]), s[1..])
  }

  /** The text does not end inside a string. */
  predicate Terminated(s: string) {
    EndMode(Plainly, s) == Plainly
  }

  /** The string whose inside `s` starts with is closed within `s`. */
  predicate Closes(s: string, escaped: bool)
    decreases |s|
  {
    s != "" && if escaped then Closes(s[1..], false)
               else if s[0] == Backslash then Closes(s[1..], true)
               else s[0] == Quote || Closes(s[1..], false)
  }

  lemma {:induction false} EndPlain(a: string, b: string)
    requires Quote !in a
    ensures EndMode(Plainly, a + b) == EndMode(Plainly, b)
  {
    if a == "" {
      assert a + b == b;
    } else {
      EndPlain(a[1..], b);
      assert (a + b)[1..] == a[1..] + b && (a + b)[0] == a[0];
    }
  }

  lemma {:induction false} EndBody(s: string, escaped: bool)
    ensures var m := EndMode(if escaped then Escaped else InString, s);
            if Closes(s, escaped) then m == EndMode(Plainly, s[BodyLength(s, escaped)..])
            else m != Plainly && BodyLength(s, escaped) == |s|
  {
    if s == "" {
    } else if !escaped && s[0] == Quote {
    } else {
      var next := !escaped && s[0] == Backslash;
      EndBody(s[1..], next);
      LongerBody(s, escaped, next);
    }
  }

  /** A closed string ends where it ended, whatever follows. */
  lemma {:induction false} ClosedBody(s: string, escaped: bool, tail: string)
    requires Closes(s, escaped)
    ensures BodyLength(s[..BodyLength(s, escaped)] + tail, escaped) == BodyLength(s, escaped)
  {
    var n := BodyLength(s, escaped);
    var t := s[..n] + tail;
    if escaped || s[0] != Quote {
      var next := !escaped && s[0] == Backslash;
      ClosedBody(s[1..], next, tail);
      LongerBody(s, escaped, next);
      assert t[0] == s[0] && t[1..] == s[1..][..n - 1] + tail;
      LongerBody(t, escaped, next);
    }
  }

  lemma {:induction false} QuoteComes(p: string, q: string)
    requires Quote !in p && (q == "" || q[0] == Quote)
    ensures FirstQuote(p + q) == |p|
  {
    if p == "" {
      assert p + q == q;
    } else {
      QuoteComes(p[1..], q);
      assert (p + q)[1..] == p[1..] + q && (p + q)[0] == p[0];
    }
  }

  /** A rewrite that brings in no quotation mark leaves every quoted piece as it
      is, in order: scanning the result finds the same pieces, rewritten outside
      the quotes. The text must not end inside a string, or else nothing may be
      written where there was nothing. */
  lemma {:induction false} RewritingKeepsQuotes(s: string, f: string -> string)
    requires forall t :: Quote !in t ==> Quote !in f(t)
    requires Terminated(s) || f("") == ""
    ensures Pieces(Join(Pieces(s), f)) == Mapped(Pieces(s), f)
    decreases |s|
  {
    hide BodyLength, Join, Pieces, EndMode, Closes;
    var a := FirstQuote(s);
    if a == |s| {
      assert s[..a] == s;
      LastPiece(s);
      JoinLast(s, f);
      QuoteComes(f(s), "");
      assert f(s) + "" == f(s);
      LastPiece(f(s));
      assert Mapped([Plain(s)], f) == [Plain(f(s))] + Mapped([], f);
    } else {
      var body := s[a + 1..];
      var n := BodyLength(body, false);
      var rest := s[a + 1 + n..];
      FirstPieces(s, a, a + 1 + n);
      JoinTwo(s[..a], s[a..a + 1 + n], Pieces(rest), f);
      RestTerminates(s, a, f);
      RewritingKeepsQuotes(rest, f);
      if rest == "" {
        LastPiece("");
        JoinLast("", f);
      }
      JoinedString(s, a, n, f, Join(Pieces(rest), f));
      MappedTwo(s[..a], s[a..a + 1 + n], Pieces(rest), f);
    }
  }

  /** What follows the first string inherits the proviso. */
  lemma RestTerminates(s: string, a: nat, f: string -> string)
    requires a == FirstQuote(s) < |s| && (Terminated(s) || f("") == "")
    ensures var body := s[a + 1..];
            var rest := s[a + 1 + BodyLength(body, false)..];
            && (Terminated(rest) || f("") == "")
            && (Closes(body, false) || (rest == "" && f("") == ""))
  {
    hide BodyLength, Closes, FirstQuote;
    var body := s[a + 1..];
    EndPlain(s[..a], s[a..]);
    CutTwice(s, a, a + 1 + BodyLength(body, false));
    EndBody(body, false);
  }

  lemma JoinedString(s: string, a: nat, n: nat, f: string -> string, tail: string)
    requires a == FirstQuote(s) < |s| && n == BodyLength(s[a + 1..], false) && Quote !in f(s[..a])
    requires Closes(s[a + 1..], false) || (n == |s[a + 1..]| && tail == "")
    ensures Pieces(f(s[..a]) + s[a..a + 1 + n] + tail) == [Plain(f(s[..a])), Quoted(s[a..a + 1 + n])] + Pieces(tail)
  {
    hide BodyLength, Closes, Pieces, FirstQuote;
    var p, q, body := f(s[..a]), s[a..a + 1 + n], s[a + 1..];
    assert q[1..] == body[..n] && q[0] == Quote;
    Parts(p, q, tail);
    QuoteComes(p, q + tail);
    if Closes(body, false) {
      ClosedBody(body, false, tail);
    } else {
      assert body[..n] + tail == body;
    }
    FirstPieces(p + q + tail, |p|, |p| + 1 + n);
  }

  lemma Parts(p: string, q: string, tail: string)
    requires q != ""
    ensures var r := p + q + tail;
            && r == p + (q + tail) && (q + tail)[0] == q[0] && r[|p| + 1..] == q[1..] + tail
            && r[..|p|] == p && r[|p|..|p| + |q|] == q && r[|p| + |q|..] == tail
  {
  }

  lemma MappedTwo(t: string, q: string, rest: seq<Piece>, f: string -> string)
    ensures Mapped([Plain(t), Quoted(q)] + rest, f) == [Plain(f(t)), Quoted(q)] + Mapped(rest, f)
  {
    var all := [Plain(t), Quoted(q)] + rest;
    assert all[1..][1..] == rest && all[1..][0] == Quoted(q);
    assert Mapped(all, f) == [Plain(f(t))] + ([Quoted(q)] + Mapped(rest, f));
  }

  /** An open string takes up at least one character of what is put behind it. */
  lemma {:induction false} OpenBody(s: string, escaped: bool, tail: string)
    requires !Closes(s, escaped) && tail != ""
    ensures BodyLength(s + tail, escaped) > |s|
  {
    if s == "" {
      assert s + tail == tail;
    } else {
      var next := !escaped && s[0] == Backslash;
      OpenBody(s[1..], next, tail);
      assert (s + tail)[0] == s[0] && (s + tail)[1..] == s[1..] + tail;
      LongerBody(s + tail, escaped, next);
    }
  }

  /** Otherwise the last string swallows what was written behind it. */
  lemma {:induction false} OpenStringGrows(s: string, f: string -> string)
    requires forall t :: Quote !in t ==> Quote !in f(t)
    requires !Terminated(s) && f("") != ""
    ensures Pieces(Join(Pieces(s), f)) != Mapped(Pieces(s), f)
    decreases |s|
  {
    hide BodyLength, Join, Pieces, EndMode, Closes, Mapped;
    var a := FirstQuote(s);
    if a == |s| { NoQuoteTerminates(s); }
    var body := s[a + 1..];
    var n := BodyLength(body, false);
    var rest := s[a + 1 + n..];
    FirstPieces(s, a, a + 1 + n);
    JoinTwo(s[..a], s[a..a + 1 + n], Pieces(rest), f);
    MappedTwo(s[..a], s[a..a + 1 + n], Pieces(rest), f);
    RestOpen(s, a);
    if Closes(body, false) {
      OpenStringGrows(rest, f);
      JoinedString(s, a, n, f, Join(Pieces(rest), f));
      SameHead([Plain(f(s[..a])), Quoted(s[a..a + 1 + n])], Pieces(Join(Pieces(rest), f)), Mapped(Pieces(rest), f));
    } else {
      LastPiece("");
      JoinLast("", f);
      assert s[a..a + 1 + n] == s[a..];
      OpenStringSwallows(f(s[..a]), s[a..], f(""));
      assert Mapped(Pieces(s), f)[1] == Quoted(s[a..]);
    }
  }

  lemma SameHead<T>(head: seq<T>, a: seq<T>, b: seq<T>)
    requires a != b
    ensures head + a != head + b
  {
    assert (head + a)[|head|..] == a && (head + b)[|head|..] == b;
  }

  lemma NoQuoteTerminates(s: string)
    requires FirstQuote(s) == |s|
    ensures Terminated(s)
  {
    assert s[..|s|] == s && s + "" == s;
    EndPlain(s, "");
  }

  lemma RestOpen(s: string, a: nat)
    requires a == FirstQuote(s) < |s| && !Terminated(s)
    ensures var body := s[a + 1..];
            var rest := s[a + 1 + BodyLength(body, false)..];
            if Closes(body, false) then !Terminated(rest) else rest == "" && a + 1 + BodyLength(body, false) == |s|
  {
    hide BodyLength, Closes, FirstQuote;
    var body := s[a + 1..];
    EndPlain(s[..a], s[a..]);
    CutTwice(s, a, a + 1 + BodyLength(body, false));
    EndBody(body, false);
  }

  lemma OpenStringSwallows(p: string, q: string, tail: string)
    requires Quote !in p && q != "" && q[0] == Quote && !Closes(q[1..], false) && tail != ""
    ensures |Pieces(p + q + tail)| >= 2 && Pieces(p + q + tail)[1] != Quoted(q)
  {
    hide BodyLength, Closes, Pieces, FirstQuote;
    var r := p + q + tail;
    Parts(p, q, tail);
    QuoteComes(p, q + tail);
    OpenBody(q[1..], false, tail);
    FirstPieces(r, |p|, |p| + 1 + BodyLength(q[1..] + tail, false));
  }

  /** Exactly when a rewrite that brings in no quotation mark keeps the quoted pieces. */
  lemma RewritingKeepsQuotesExactly(s: string, f: string -> string)
    requires forall t :: Quote !in t ==> Quote !in f(t)
    ensures Pieces(Join(Pieces(s), f)) == Mapped(Pieces(s), f) <==> Terminated(s) || f("") == ""
  {
    hide Pieces, Join, Mapped, Terminated;
    if Terminated(s) || f("") == "" {
      RewritingKeepsQuotes(s, f);
    } else {
      OpenStringGrows(s, f);
    }
  }
}
