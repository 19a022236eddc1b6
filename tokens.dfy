/**
 * Splitting an input line into tokens the way `String.split("[\\s+]")` does,
 * and classifying a token as a passenger: digits for a passenger without a
 * window preference, digits followed by `W` for one with it.
 */
module Tokens {
  import opened Wrappers
  import opened Decimal

  /** The character class `[\s+]`: the six ASCII white-space characters and `+`. */
  predicate IsSeparator(c: char) {
    c == ' ' || c == '\t' || c == '\n' || c == '\U{0B}' || c == '\U{0C}' || c == '\r' || c == '+'
  }

  predicate NoSeparator(s: string) {
    forall i :: 0 <= i < |s| ==> !IsSeparator(s[i])
  }

  /** The separators of `s`, in order. */
  function Separators(s: string): (r: string)
    ensures forall i :: 0 <= i < |r| ==> IsSeparator(r[i])
  {
    if s == [] then []
    else (if IsSeparator(s[0]) then [s[0]] else []) + Separators(s[1..])
  }

  /** The characters of `s` that are not separators, in order. */
  function Text(s: string): (r: string)
    ensures NoSeparator(r)
  {
    if s == [] then []
    else (if IsSeparator(s[0]) then [] else [s[0]]) + Text(s[1..])
  }

  /**
   * The pieces between separators, one more than there are separators; two
   * adjacent separators, or one at either end, give an empty piece.
   */
  function Pieces(s: string): (r: seq<string>)
    ensures |r| == |Separators(s)| + 1
  {
    if s == [] then [""]
    else
      var rest := Pieces(s[1..]);
      if IsSeparator(s[0]) then [""] + rest
      else [[s[0]] + rest[0]] + rest[1..]
  }

  /** The pieces with the separators put back between them. */
  function Interleave(ps: seq<string>, cs: string): (r: string)
    requires |ps| == |cs| + 1
  {
    if cs == [] then ps[0] else ps[0] + [cs[0]] + Interleave(ps[1..], cs[1..])
  }

  /** Putting the separators back between the pieces gives the line back. */
  lemma {:induction false} InterleavePieces(s: string)
    ensures Interleave(Pieces(s), Separators(s)) == s
  {
    if s != [] {
      var rest, cs := Pieces(s[1..]), Separators(s[1..]);
      InterleavePieces(s[1..]);
      if IsSeparator(s[0]) {
        assert Separators(s) == [s[0]] + cs;
        assert ([""] + rest)[1..] == rest;
      } else {
        assert Separators(s) == cs;
        var ps := Pieces(s);
        assert ps[1..] == rest[1..];
        if cs == [] {
          assert s == [s[0]] + s[1..];
        } else {
          assert Interleave(rest, cs) == rest[0] + [cs[0]] + Interleave(rest[1..], cs[1..]);
          assert s == [s[0]] + s[1..];
        }
      }
    }
  }

  /** `ps` without its trailing empty strings. */
  function DropTrailingEmpty(ps: seq<string>): seq<string> {
    if ps == [] then []
    else if ps[|ps| - 1] == "" then DropTrailingEmpty(ps[..|ps| - 1])
    else ps
  }

  /** What is dropped is a run of empty strings at the end, and what is kept does not end in one. */
  lemma {:induction false} DropTrailingEmptyKeeps(ps: seq<string>)
    ensures var r := DropTrailingEmpty(ps);
            && |r| <= |ps| && r == ps[..|r|]
            && (forall i :: |r| <= i < |ps| ==> ps[i] == "")
            && (r != [] ==> r[|r| - 1] != "")
  {
    if ps != [] && ps[|ps| - 1] == "" {
      var init := ps[..|ps| - 1];
      DropTrailingEmptyKeeps(init);
      var r := DropTrailingEmpty(init);
      assert init[..|r|] == ps[..|r|];
    }
  }

  /** No piece holds a separator. */
  lemma {:induction false} PiecesNoSeparator(s: string)
    ensures forall i :: 0 <= i < |Pieces(s)| ==> NoSeparator(Pieces(s)[i])
  {
    if s != [] {
      PiecesNoSeparator(s[1..]);
      var rest := Pieces(s[1..]);
      if !IsSeparator(s[0]) {
        assert NoSeparator(rest[0]);
        assert NoSeparator([s[0]] + rest[0]);
      }
    }
  }

  /**
   * `line.split("[\\s+]")`: without a separator the line itself; otherwise
   * the pieces, less the empty ones at the end. Leading and inner empty
   * pieces stay.
   */
  function Split(line: string): (r: seq<string>)
  {
    if Separators(line) == [] then [line] else DropTrailingEmpty(Pieces(line))
  }

  /** Concatenation of a sequence of strings. */
  function Concat(ps: seq<string>): string {
    if ps == [] then [] else ps[0] + Concat(ps[1..])
  }

  lemma {:induction false} ConcatAppend(a: seq<string>, b: seq<string>)
    ensures Concat(a + b) == Concat(a) + Concat(b)
    decreases |a|
  {
    if a == [] {
      assert a + b == b;
    } else {
      ConcatAppend(a[1..], b);
      assert (a + b)[1..] == a[1..] + b;
    }
  }

  lemma {:induction false} ConcatPieces(s: string)
    ensures Concat(Pieces(s)) == Text(s)
  {
    if s != [] {
      var rest := Pieces(s[1..]);
      ConcatPieces(s[1..]);
      if IsSeparator(s[0]) {
        assert ([""] + rest)[1..] == rest;
      } else {
        var ps := Pieces(s);
        assert ps[1..] == rest[1..];
        assert Concat(rest) == rest[0] + Concat(rest[1..]);
      }
    }
  }

  lemma {:induction false} ConcatEmpties(ps: seq<string>)
    requires forall i :: 0 <= i < |ps| ==> ps[i] == ""
    ensures Concat(ps) == ""
    decreases |ps|
  {
    if ps != [] {
      ConcatEmpties(ps[1..]);
    }
  }

  /**
   * The tokens hold no separator, and together they are exactly the line's
   * characters that are not separators, in order: the split loses nothing
   * but separators.
   */
  lemma {:induction false} SplitKeepsText(line: string)
    ensures forall i :: 0 <= i < |Split(line)| ==> NoSeparator(Split(line)[i])
    ensures Concat(Split(line)) == Text(line)
  {
    var ps := Pieces(line);
    InterleavePieces(line);
    ConcatPieces(line);
    PiecesNoSeparator(line);
    DropTrailingEmptyKeeps(ps);
    if Separators(line) == [] {
      assert ps == [line];
      assert Concat([line]) == line + Concat([]);
    } else {
      var r := DropTrailingEmpty(ps);
      assert ps == r + ps[|r|..];
      ConcatAppend(r, ps[|r|..]);
      ConcatEmpties(ps[|r|..]);
    }
  }

  /** An empty line splits into one empty token. */
  lemma {:induction false} SplitEmptyLine()
    ensures Split("") == [""]
  {
  }

  /** A line of separators only splits into no token at all. */
  lemma {:induction false} SplitBlankLine(line: string)
    requires |line| >= 1 && forall i :: 0 <= i < |line| ==> IsSeparator(line[i])
    ensures Split(line) == []
  {
    ConcatPieces(line);
    TextOfBlank(line);
    assert Separators(line) != [] by {
      assert Separators(line) == [line[0]] + Separators(line[1..]);
    }
    var ps := Pieces(line);
    var r := DropTrailingEmpty(ps);
    DropTrailingEmptyKeeps(ps);
    assert ps == r + ps[|r|..];
    ConcatAppend(r, ps[|r|..]);
    ConcatLast(r);
  }

  lemma {:induction false} TextOfBlank(line: string)
    requires forall i :: 0 <= i < |line| ==> IsSeparator(line[i])
    ensures Text(line) == ""
  {
    if line != [] {
      TextOfBlank(line[1..]);
    }
  }

  /**
   * A separator at the start of a line that holds a passenger's text gives
   * an empty first token.
   */
  lemma {:induction false} SplitLeadingSeparator(line: string)
    requires |line| >= 1 && IsSeparator(line[0]) && Text(line) != ""
    ensures |Split(line)| >= 2 && Split(line)[0] == ""
  {
    var ps := Pieces(line);
    assert Separators(line) == [line[0]] + Separators(line[1..]);
    assert ps[0] == "";
    var r := DropTrailingEmpty(ps);
    DropTrailingEmptyKeeps(ps);
    ConcatPieces(line);
    assert ps == r + ps[|r|..];
    ConcatAppend(r, ps[|r|..]);
    ConcatEmpties(ps[|r|..]);
    ConcatShort(r);
  }

  /** A last string that is not empty leaves the concatenation not empty. */
  lemma {:induction false} ConcatLast(ps: seq<string>)
    ensures ps != [] && ps[|ps| - 1] != "" ==> |Concat(ps)| > 0
  {
    if ps != [] {
      var n := |ps| - 1;
      assert ps == ps[..n] + [ps[n]];
      ConcatAppend(ps[..n], [ps[n]]);
      assert Concat([ps[n]]) == ps[n] + Concat([]);
    }
  }

  /** No string, or one empty string, concatenates to the empty string. */
  lemma {:induction false} ConcatShort(ps: seq<string>)
    ensures |ps| == 0 || (|ps| == 1 && ps[0] == "") ==> Concat(ps) == ""
  {
    if |ps| == 1 {
      assert Concat(ps) == ps[0] + Concat(ps[1..]);
    }
  }

  /** Tokens written one after the other with a single space between them. */
  function JoinTokens(ts: seq<string>): string {
    if ts == [] then ""
    else if |ts| == 1 then ts[0]
    else ts[0] + " " + JoinTokens(ts[1..])
  }

  /** Text without a separator in front of the rest of a line extends the first piece. */
  lemma {:induction false} PiecesWord(w: string, s: string)
    requires NoSeparator(w)
    ensures Pieces(w + s) == [w + Pieces(s)[0]] + Pieces(s)[1..]
    decreases |w|
  {
    if w == [] {
      var ps := Pieces(s);
      assert w + s == s && w + ps[0] == ps[0];
      assert [ps[0]] + ps[1..] == ps;
    } else {
      var c, t, ps := w[0], w[1..] + s, Pieces(s);
      PiecesWord(w[1..], s);
      var qs := Pieces(t);
      assert qs[0] == w[1..] + ps[0] && qs[1..] == ps[1..];
      assert (w + s)[0] == c && (w + s)[1..] == t;
      assert Pieces(w + s) == [[c] + qs[0]] + qs[1..];
      assert [c] + (w[1..] + ps[0]) == w + ps[0];
    }
  }

  lemma {:induction false} SeparatorsNone(w: string)
    requires NoSeparator(w)
    ensures Separators(w) == []
    decreases |w|
  {
    if w != [] {
      SeparatorsNone(w[1..]);
    }
  }

  /** Joined tokens without separators come apart into the same tokens. */
  lemma {:induction false} PiecesJoin(ts: seq<string>)
    requires |ts| >= 1 && forall i :: 0 <= i < |ts| ==> NoSeparator(ts[i])
    ensures Pieces(JoinTokens(ts)) == ts
    decreases |ts|
  {
    if |ts| == 1 {
      PiecesWord(ts[0], "");
      assert ts[0] + "" == ts[0];
    } else {
      var rest := JoinTokens(ts[1..]);
      PiecesJoin(ts[1..]);
      assert JoinTokens(ts) == ts[0] + (" " + rest);
      PiecesWord(ts[0], " " + rest);
      assert (" " + rest)[1..] == rest;
      assert Pieces(" " + rest) == [""] + ts[1..];
      assert ts[0] + "" == ts[0];
    }
  }

  /**
   * Tokens that are not empty and hold no separator, joined by spaces,
   * split back into exactly those tokens.
   */
  lemma {:induction false} SplitJoin(ts: seq<string>)
    requires |ts| >= 1 && forall i :: 0 <= i < |ts| ==> ts[i] != "" && NoSeparator(ts[i])
    ensures Split(JoinTokens(ts)) == ts
  {
    PiecesJoin(ts);
    if |ts| == 1 {
      SeparatorsNone(ts[0]);
    }
  }

  /** What a passenger token stands for. */
  datatype Token = Token(id: int, wantsWindow: bool)

  /** `\d+`: one or more ASCII digits. */
  predicate IsPlain(t: string) {
    |t| >= 1 && AllDigits(t)
  }

  /** `\d+[W]`: one or more ASCII digits, then `W`. */
  predicate IsWindow(t: string) {
    |t| >= 2 && t[|t| - 1] == 'W' && AllDigits(t[..|t| - 1])
  }

  /**
   * The token check of the passenger loop: the value of the digits, with a
   * window preference exactly for the `W` form; any other token is refused.
   */
  function Classify(t: string): (r: Option<Token>)
    ensures r.Some? <==> IsPlain(t) || IsWindow(t)
    ensures r.Some? ==> r.value.wantsWindow == IsWindow(t) && r.value.id >= 0
    ensures IsPlain(t) ==> r == Some(Token(DigitsValue(t), false))
    ensures IsWindow(t) ==> r == Some(Token(DigitsValue(t[..|t| - 1]), true))
  {
    if IsPlain(t) then Some(Token(DigitsValue(t), false))
    else if IsWindow(t) then Some(Token(DigitsValue(t[..|t| - 1]), true))
    else None
  }

  /** The token of a passenger as it appears in the input. */
  function Render(tok: Token): (t: string)
    requires tok.id >= 0
    ensures t != "" && NoSeparator(t)
  {
    NatToString(tok.id) + (if tok.wantsWindow then "W" else "")
  }

  /** Reading back a rendered token gives it back. */
  lemma {:induction false} ClassifyRender(tok: Token)
    requires tok.id >= 0
    ensures Classify(Render(tok)) == Some(tok)
  {
    var digits := NatToString(tok.id);
    var t := Render(tok);
    DigitsValueOfNatToString(tok.id);
    if tok.wantsWindow {
      assert t[..|t| - 1] == digits;
      assert !IsDigit(t[|t| - 1]);
    } else {
      assert t == digits;
    }
  }

  /** The empty token is not a passenger. */
  lemma {:induction false} ClassifyEmpty()
    ensures Classify("") == None
  {
  }
}
