/**
 * `properties.split` on the regular expression `\s*,\s*`, the CSV split that `select` applies to a
 * string of property names.
 *
 * `Split` follows the ECMAScript split algorithm for a regular expression:
 * it scans positions from left to right, tries to match `\s*,\s*` at each,
 * and cuts the string at every match. `Pieces` is an independent reference
 * definition: cut at every comma, then drop the whitespace that touches a
 * comma. `SplitIsPieces` proves the two equal for every string.
 */
module Csv {
  import opened Values

  /**
   * The characters `\s` matches: ECMAScript WhiteSpace and LineTerminator.
   * The comma is not one of them, so `\s*` never swallows the separator.
   */
  predicate IsSpace(c: char)
  {
    || c == ' ' || c == '\t' || c == '\n' || c == '\r'
    || c == '\U{B}' || c == '\U{C}' || c == '\U{A0}' || c == '\U{1680}'
    || ('\U{2000}' <= c <= '\U{200A}')
    || c == '\U{2028}' || c == '\U{2029}' || c == '\U{202F}' || c == '\U{205F}'
    || c == '\U{3000}' || c == '\U{FEFF}'
  }

  /** Where the greedy `\s*` that starts at `i` stops: the end of the whitespace run at `i`. */
  function SpaceEnd(s: string, i: nat): (j: nat)
    requires i <= |s|
    ensures i <= j <= |s|
    ensures j == |s| || !IsSpace(s[j])
    decreases |s| - i
  {
    if i < |s| && IsSpace(s[i]) then SpaceEnd(s, i + 1) else i
  }

  /** Everything the greedy `\s*` from `i` skips is whitespace. */
  lemma {:induction false} SpaceEndSkipsSpace(s: string, i: nat)
    requires i <= |s|
    ensures forall k :: i <= k < SpaceEnd(s, i) ==> IsSpace(s[k])
    decreases |s| - i
  {
    if i < |s| && IsSpace(s[i]) {
      SpaceEndSkipsSpace(s, i + 1);
    }
  }

  /**
   * The end of the match of `\s*,\s*` that starts exactly at `q`, if there is
   * one. Giving back part of the first `\s*` cannot help, since what precedes
   * the comma must be whitespace, so the match exists exactly when the
   * whitespace run at `q` is followed by a comma.
   */
  function MatchEnd(s: string, q: nat): (r: Option<nat>)
    requires q <= |s|
    ensures r.Some? ==> q < r.value <= |s|
    ensures r.Some? ==> r.value == |s| || !IsSpace(s[r.value])
  {
    var j := SpaceEnd(s, q);
    if j < |s| && s[j] == ',' then Some(SpaceEnd(s, j + 1)) else None
  }

  /**
   * Whitespace from `q` up to a comma at `j` is a match at `q`, and it
   * swallows the whitespace run after the comma.
   */
  lemma MatchAtComma(s: string, q: nat, j: nat)
    requires q <= j < |s| && s[j] == ','
    requires forall k :: q <= k < j ==> IsSpace(s[k])
    ensures MatchEnd(s, q) == Some(SpaceEnd(s, j + 1))
  {
    SpaceEndUnique(s, q, j);
  }

  /** A match at `q` is whitespace up to a comma, so it is one `MatchAtComma` describes. */
  lemma MatchIsSpaceThenComma(s: string, q: nat)
    requires q <= |s| && MatchEnd(s, q).Some?
    ensures var j := SpaceEnd(s, q);
      && j < |s| && s[j] == ','
      && (forall k :: q <= k < j ==> IsSpace(s[k]))
  {
    SpaceEndSkipsSpace(s, q);
  }

  /**
   * The split loop: `p` is where the current piece starts, `q` the position
   * the next match is tried at.
   */
  function SplitFrom(s: string, p: nat, q: nat): (r: seq<string>)
    requires p <= q <= |s|
    ensures |r| >= 1
    decreases |s| - q
  {
    if q == |s| then [s[p..]]
    else
      match MatchEnd(s, q)
      case Some(e) => [s[p..q]] + SplitFrom(s, e, e)
      case None => SplitFrom(s, p, q + 1)
  }

  /** `s.split` on the regular expression `\s*,\s*`: never empty, since the pattern cannot match the empty string. */
  function Split(s: string): (r: seq<string>)
    ensures |r| >= 1
  {
    SplitFrom(s, 0, 0)
  }

  // ---------------------------------------------------------------------
  // The reference definition: cut at each comma, then trim next to it

  /** The first comma at or after `i`, or `|s|` when there is none. */
  function NextComma(s: string, i: nat): (c: nat)
    requires i <= |s|
    ensures i <= c <= |s|
    ensures c < |s| ==> s[c] == ','
    decreases |s| - i
  {
    if i == |s| || s[i] == ',' then i else NextComma(s, i + 1)
  }

  /** No comma stands between `i` and the comma `NextComma` finds. */
  lemma {:induction false} NextCommaSkips(s: string, i: nat)
    requires i <= |s|
    ensures forall k :: i <= k < NextComma(s, i) ==> s[k] != ','
    decreases |s| - i
  {
    if i < |s| && s[i] != ',' {
      NextCommaSkips(s, i + 1);
    }
  }

  /** Where `s[p..c]` ends once its trailing whitespace is dropped. */
  function TrimBack(s: string, p: nat, c: nat): (w: nat)
    requires p <= c <= |s|
    ensures p <= w <= c
    ensures w == p || !IsSpace(s[w - 1])
    decreases c - p
  {
    if p < c && IsSpace(s[c - 1]) then TrimBack(s, p, c - 1) else c
  }

  /** Only whitespace is dropped from the end of `s[p..c]`. */
  lemma {:induction false} TrimBackDropsSpace(s: string, p: nat, c: nat)
    requires p <= c <= |s|
    ensures forall k :: TrimBack(s, p, c) <= k < c ==> IsSpace(s[k])
    decreases c - p
  {
    if p < c && IsSpace(s[c - 1]) {
      TrimBackDropsSpace(s, p, c - 1);
    }
  }

  /**
   * The pieces of `s[p..]`: cut at every comma; a piece loses the whitespace
   * before the comma that ends it and after the comma that starts it, and
   * nothing else.
   */
  function PiecesFrom(s: string, p: nat): (r: seq<string>)
    requires p <= |s|
    decreases |s| - p
  {
    var c := NextComma(s, p);
    if c == |s| then [s[p..]]
    else [s[p..TrimBack(s, p, c)]] + PiecesFrom(s, SpaceEnd(s, c + 1))
  }

  function Pieces(s: string): seq<string> {
    PiecesFrom(s, 0)
  }

  // ---------------------------------------------------------------------
  // The split algorithm computes the reference split

  /** With no comma at or after `q`, no match is found and the rest is one piece. */
  lemma {:induction false} NoCommaIsLastPiece(s: string, p: nat, q: nat)
    requires p <= q <= |s|
    requires forall k :: q <= k < |s| ==> s[k] != ','
    ensures SplitFrom(s, p, q) == [s[p..]]
    decreases |s| - q
  {
    if q < |s| {
      assert MatchEnd(s, q).None?;
      NoCommaIsLastPiece(s, p, q + 1);
    }
  }

  /** A position where no match starts is stepped over. */
  lemma SplitStep(s: string, p: nat, q: nat)
    requires p <= q < |s| && MatchEnd(s, q).None?
    ensures SplitFrom(s, p, q) == SplitFrom(s, p, q + 1)
  {
  }

  /** Positions with no match are stepped over. */
  lemma {:induction false} SkipNoMatch(s: string, p: nat, q: nat, w: nat)
    requires p <= q <= w <= |s|
    requires forall k :: q <= k < w ==> MatchEnd(s, k).None?
    ensures SplitFrom(s, p, q) == SplitFrom(s, p, w)
    decreases w - q
  {
    if q < w {
      SplitStep(s, p, q);
      SkipNoMatch(s, p, q + 1, w);
    }
  }

  /** `SpaceEnd` is the only end of a whitespace run. */
  lemma {:induction false} SpaceEndUnique(s: string, i: nat, j: nat)
    requires i <= j <= |s|
    requires forall k :: i <= k < j ==> IsSpace(s[k])
    requires j == |s| || !IsSpace(s[j])
    ensures SpaceEnd(s, i) == j
    decreases j - i
  {
    if i < j {
      SpaceEndUnique(s, i + 1, j);
    }
  }

  /**
   * Before the whitespace that precedes the first comma after `p` no match
   * starts: the whitespace run from there ends at a character that is
   * neither whitespace nor a comma.
   */
  lemma NoMatchBeforeTrim(s: string, p: nat)
    requires p <= |s|
    ensures var w := TrimBack(s, p, NextComma(s, p));
      forall k :: p <= k < w ==> MatchEnd(s, k).None?
  {
    var w := TrimBack(s, p, NextComma(s, p));
    NextCommaSkips(s, p);
    forall k | p <= k < w ensures MatchEnd(s, k).None? {
      SpaceEndSkipsSpace(s, k);
      assert !IsSpace(s[w - 1]);
    }
  }

  /**
   * Where the whitespace before that comma begins, a match starts; it ends
   * after the whitespace that follows the comma.
   */
  lemma MatchAtTrim(s: string, p: nat)
    requires p <= |s| && NextComma(s, p) < |s|
    ensures var c := NextComma(s, p);
      MatchEnd(s, TrimBack(s, p, c)) == Some(SpaceEnd(s, c + 1))
  {
    var c := NextComma(s, p);
    assert !IsSpace(s[c]);
    TrimBackDropsSpace(s, p, c);
    SpaceEndUnique(s, TrimBack(s, p, c), c);
  }

  /** The scan's first cut is the reference's first cut. */
  lemma ScanCutsAtComma(s: string, p: nat)
    requires p <= |s| && NextComma(s, p) < |s|
    ensures var c := NextComma(s, p);
      SplitFrom(s, p, p)
      == [s[p..TrimBack(s, p, c)]] + SplitFrom(s, SpaceEnd(s, c + 1), SpaceEnd(s, c + 1))
  {
    var c := NextComma(s, p);
    var w := TrimBack(s, p, c);
    NoMatchBeforeTrim(s, p);
    SkipNoMatch(s, p, p, w);
    MatchAtTrim(s, p);
  }

  /** The reference split when no comma follows `p`: the rest is one piece. */
  lemma PiecesFromLast(s: string, p: nat)
    requires p <= |s| && NextComma(s, p) == |s|
    ensures PiecesFrom(s, p) == [s[p..]]
  {
  }

  /** The reference split when a comma follows `p`: one trimmed piece, then the rest after the comma's whitespace. */
  lemma PiecesFromCut(s: string, p: nat)
    requires p <= |s| && NextComma(s, p) < |s|
    ensures var c := NextComma(s, p);
      PiecesFrom(s, p) == [s[p..TrimBack(s, p, c)]] + PiecesFrom(s, SpaceEnd(s, c + 1))
  {
  }

  /** From the start `p` of a piece, the scan yields the reference split of `s[p..]`. */
  lemma {:induction false} SplitFromIsPieces(s: string, p: nat)
    requires p <= |s|
    ensures SplitFrom(s, p, p) == PiecesFrom(s, p)
    decreases |s| - p
  {
    var c := NextComma(s, p);
    if c == |s| {
      NextCommaSkips(s, p);
      NoCommaIsLastPiece(s, p, p);
      PiecesFromLast(s, p);
    } else {
      var e := SpaceEnd(s, c + 1);
      ScanCutsAtComma(s, p);
      SplitFromIsPieces(s, e);
      PiecesFromCut(s, p);
    }
  }

  /** `Split` cuts exactly at the commas and drops exactly the whitespace next to them. */
  lemma SplitIsPieces(s: string)
    ensures Split(s) == Pieces(s)
  {
    SplitFromIsPieces(s, 0);
  }

  // ---------------------------------------------------------------------
  // What the split promises

  /** A string with no comma is a single name, whitespace and all. */
  lemma SplitWithoutComma(s: string)
    requires forall k :: 0 <= k < |s| ==> s[k] != ','
    ensures Split(s) == [s]
  {
    NoCommaIsLastPiece(s, 0, 0);
  }

  /** The number of commas in `s[i..]`. */
  function CommasFrom(s: string, i: nat): nat
    requires i <= |s|
    decreases |s| - i
  {
    if i == |s| then 0 else (if s[i] == ',' then 1 else 0) + CommasFrom(s, i + 1)
  }

  /** Commas are counted past a stretch that has none. */
  lemma {:induction false} CommasSkip(s: string, i: nat, j: nat)
    requires i <= j <= |s|
    requires forall k :: i <= k < j ==> s[k] != ','
    ensures CommasFrom(s, i) == CommasFrom(s, j)
    decreases j - i
  {
    if i < j {
      CommasSkip(s, i + 1, j);
    }
  }

  /** No piece of `r` holds a comma. */
  ghost predicate CommaFree(r: seq<string>) {
    forall i :: 0 <= i < |r| ==> ',' !in r[i]
  }

  lemma CommaFreeSlice(s: string, p: nat, w: nat)
    requires p <= w <= |s|
    requires forall k :: p <= k < w ==> s[k] != ','
    ensures ',' !in s[p..w]
  {
    forall k | 0 <= k < w - p ensures s[p..w][k] != ',' {
      assert s[p..w][k] == s[p + k];
    }
  }

  lemma CommaFreeCons(x: string, rest: seq<string>)
    requires ',' !in x && CommaFree(rest)
    ensures CommaFree([x] + rest)
  {
    var r := [x] + rest;
    forall i | 0 < i < |r| ensures r[i] == rest[i - 1] {
    }
  }

  /** The last piece holds no comma, and no comma follows it. */
  lemma LastPieceShape(s: string, p: nat)
    requires p <= |s| && NextComma(s, p) == |s|
    ensures CommaFree([s[p..]]) && CommasFrom(s, p) == 0
  {
    NextCommaSkips(s, p);
    CommasSkip(s, p, |s|);
    CommaFreeSlice(s, p, |s|);
    assert s[p..|s|] == s[p..];
  }

  /**
   * A piece cut before a comma holds no comma, and that comma is the only one
   * between `p` and the start of the next piece.
   */
  lemma CutShape(s: string, p: nat)
    requires p <= |s| && NextComma(s, p) < |s|
    ensures var c := NextComma(s, p);
      && ',' !in s[p..TrimBack(s, p, c)]
      && CommasFrom(s, p) == 1 + CommasFrom(s, SpaceEnd(s, c + 1))
  {
    var c := NextComma(s, p);
    var e := SpaceEnd(s, c + 1);
    NextCommaSkips(s, p);
    CommasSkip(s, p, c);
    SpaceEndSkipsSpace(s, c + 1);
    forall k | c + 1 <= k < e ensures s[k] != ',' {
      assert IsSpace(s[k]);
    }
    CommasSkip(s, c + 1, e);
    CommaFreeSlice(s, p, TrimBack(s, p, c));
  }

  /** One cut: the shape of the pieces after the comma gives the shape of all of them. */
  lemma ShapeStep(s: string, p: nat)
    requires p <= |s| && NextComma(s, p) < |s|
    requires var e := SpaceEnd(s, NextComma(s, p) + 1);
      CommaFree(PiecesFrom(s, e)) && |PiecesFrom(s, e)| == CommasFrom(s, e) + 1
    ensures CommaFree(PiecesFrom(s, p)) && |PiecesFrom(s, p)| == CommasFrom(s, p) + 1
  {
    var c := NextComma(s, p);
    CutShape(s, p);
    PiecesFromCut(s, p);
    CommaFreeCons(s[p..TrimBack(s, p, c)], PiecesFrom(s, SpaceEnd(s, c + 1)));
  }

  /** No piece holds a comma, and there is one piece more than there are commas. */
  lemma {:induction false} PiecesShape(s: string, p: nat)
    requires p <= |s|
    ensures CommaFree(PiecesFrom(s, p))
    ensures |PiecesFrom(s, p)| == CommasFrom(s, p) + 1
    decreases |s| - p
  {
    var c := NextComma(s, p);
    if c == |s| {
      PiecesFromLast(s, p);
      LastPieceShape(s, p);
    } else {
      PiecesShape(s, SpaceEnd(s, c + 1));
      ShapeStep(s, p);
    }
  }

  /** `Split` holds one name more than the string has commas, and no name holds a comma. */
  lemma SplitShape(s: string)
    ensures |Split(s)| == CommasFrom(s, 0) + 1
    ensures forall i :: 0 <= i < |Split(s)| ==> ',' !in Split(s)[i]
  {
    SplitIsPieces(s);
    PiecesShape(s, 0);
  }

  /** A piece begins where the scan for it began. */
  lemma PiecesFirst(s: string, p: nat)
    requires p <= |s|
    ensures |PiecesFrom(s, p)| > 0
    ensures PiecesFrom(s, p)[0] != [] ==> p < |s| && PiecesFrom(s, p)[0][0] == s[p]
  {
  }

  /** `x` does not begin with whitespace. */
  predicate StartsClean(x: string) {
    x == [] || !IsSpace(x[0])
  }

  /** `x` does not end with whitespace. */
  predicate EndsClean(x: string) {
    x == [] || !IsSpace(x[|x| - 1])
  }

  /** No piece but the first begins with whitespace and no piece but the last ends with it. */
  ghost predicate Trimmed(r: seq<string>) {
    && (forall i :: 0 < i < |r| ==> StartsClean(r[i]))
    && (forall i :: 0 <= i < |r| - 1 ==> EndsClean(r[i]))
  }

  /** Putting a piece that ends clean before trimmed pieces that start clean keeps them trimmed. */
  lemma TrimmedCons(x: string, rest: seq<string>, r: seq<string>)
    ensures r == [x] + rest && Trimmed(rest) && rest != [] && EndsClean(x) && StartsClean(rest[0]) ==> Trimmed(r)
  {
    if r == [x] + rest {
      forall i | 0 < i < |r| ensures r[i] == rest[i - 1] {
      }
    }
  }

  /** A piece cut before a comma does not end with whitespace. */
  lemma CutEndsTrimmed(s: string, p: nat, c: nat)
    requires p <= c <= |s|
    ensures EndsClean(s[p..TrimBack(s, p, c)])
  {
    var w := TrimBack(s, p, c);
    if w > p {
      assert s[p..w][w - p - 1] == s[w - 1];
    }
  }

  /** A piece started after the whitespace that follows a comma does not begin with whitespace. */
  lemma RestStartsTrimmed(s: string, e: nat)
    requires e <= |s| && (e == |s| || !IsSpace(s[e]))
    ensures |PiecesFrom(s, e)| > 0 && StartsClean(PiecesFrom(s, e)[0])
  {
    PiecesFirst(s, e);
  }

  /** One cut: if the pieces after the comma are trimmed, so are all of them. */
  lemma TrimmedStep(s: string, p: nat)
    requires p <= |s| && NextComma(s, p) < |s|
    requires Trimmed(PiecesFrom(s, SpaceEnd(s, NextComma(s, p) + 1)))
    ensures Trimmed(PiecesFrom(s, p))
  {
    var c := NextComma(s, p);
    var e := SpaceEnd(s, c + 1);
    var x := s[p..TrimBack(s, p, c)];
    var rest := PiecesFrom(s, e);
    PiecesFromCut(s, p);
    CutEndsTrimmed(s, p, c);
    RestStartsTrimmed(s, e);
    TrimmedCons(x, rest, PiecesFrom(s, p));
  }

  /** All whitespace next to a comma is gone from the reference pieces. */
  lemma {:induction false} PiecesTrimmed(s: string, p: nat)
    requires p <= |s|
    ensures Trimmed(PiecesFrom(s, p))
    decreases |s| - p
  {
    var c := NextComma(s, p);
    if c == |s| {
      PiecesFromLast(s, p);
    } else {
      PiecesTrimmed(s, SpaceEnd(s, c + 1));
      TrimmedStep(s, p);
    }
  }

  /** Whitespace touching a comma is dropped from every name `Split` returns. */
  lemma SplitTrimmed(s: string)
    ensures forall i :: 0 < i < |Split(s)| && Split(s)[i] != [] ==> !IsSpace(Split(s)[i][0])
    ensures forall i :: 0 <= i < |Split(s)| - 1 && Split(s)[i] != [] ==>
              !IsSpace(Split(s)[i][|Split(s)[i]| - 1])
  {
    SplitIsPieces(s);
    PiecesTrimmed(s, 0);
    var r := Split(s);
    forall i | 0 < i < |r| && r[i] != [] ensures !IsSpace(r[i][0]) {
      assert StartsClean(r[i]);
    }
    forall i | 0 <= i < |r| - 1 && r[i] != [] ensures !IsSpace(r[i][|r[i]| - 1]) {
      assert EndsClean(r[i]);
    }
  }

  /** `names` joined with commas. */
  function Join(names: seq<string>): string
    decreases |names|
  {
    if names == [] then ""
    else if |names| == 1 then names[0]
    else names[0] + "," + Join(names[1..])
  }

  /** No whitespace stands directly before or after a comma. */
  ghost predicate Tight(s: string) {
    forall i, j :: 0 <= i < j < |s| && j == i + 1 ==>
      !(IsSpace(s[i]) && s[j] == ',') && !(s[i] == ',' && IsSpace(s[j]))
  }

  /** In a tight string the cut at a comma drops nothing. */
  lemma TightCut(s: string, p: nat)
    requires p <= |s| && Tight(s) && NextComma(s, p) < |s|
    ensures var c := NextComma(s, p);
      TrimBack(s, p, c) == c && SpaceEnd(s, c + 1) == c + 1
  {
    var c := NextComma(s, p);
    assert s[c] == ',';
    assert c > p ==> !IsSpace(s[c - 1]);
    assert c + 1 < |s| ==> !IsSpace(s[c + 1]);
    SpaceEndUnique(s, c + 1, c + 1);
  }

  lemma JoinCons(x: string, rest: seq<string>)
    requires rest != []
    ensures Join([x] + rest) == x + "," + Join(rest)
  {
    assert ([x] + rest)[1..] == rest;
  }

  lemma SliceAtComma(s: string, p: nat, c: nat)
    requires p <= c < |s| && s[c] == ','
    ensures s[p..] == s[p..c] + "," + s[c + 1..]
  {
  }

  lemma JoinAtComma(s: string, p: nat, c: nat, rest: seq<string>)
    requires p <= c < |s| && s[c] == ','
    requires rest != [] && Join(rest) == s[c + 1..]
    ensures Join([s[p..c]] + rest) == s[p..]
  {
    JoinCons(s[p..c], rest);
    SliceAtComma(s, p, c);
  }

  /** In a tight string a comma cuts off exactly the text before it. */
  lemma TightStep(s: string, p: nat)
    requires p <= |s| && Tight(s) && NextComma(s, p) < |s|
    ensures var c := NextComma(s, p);
      PiecesFrom(s, p) == [s[p..c]] + PiecesFrom(s, c + 1)
  {
    TightCut(s, p);
    PiecesFromCut(s, p);
  }

  /** One cut of a tight string: if the rest joins back, so does the whole. */
  lemma JoinTightStep(s: string, p: nat)
    requires p <= |s| && Tight(s) && NextComma(s, p) < |s|
    requires Join(PiecesFrom(s, NextComma(s, p) + 1)) == s[NextComma(s, p) + 1..]
    ensures Join(PiecesFrom(s, p)) == s[p..]
  {
    var c := NextComma(s, p);
    TightStep(s, p);
    PiecesFirst(s, c + 1);
    JoinAtComma(s, p, c, PiecesFrom(s, c + 1));
  }

  /** Joining the reference pieces of a tight string gives back what they were cut from. */
  lemma {:induction false} PiecesJoinTight(s: string, p: nat)
    requires p <= |s| && Tight(s)
    ensures Join(PiecesFrom(s, p)) == s[p..]
    decreases |s| - p
  {
    var c := NextComma(s, p);
    if c == |s| {
      PiecesFromLast(s, p);
    } else {
      PiecesJoinTight(s, c + 1);
      JoinTightStep(s, p);
    }
  }

  /** On a string with no whitespace next to a comma the split loses nothing: joining gives it back. */
  lemma SplitJoinTight(s: string)
    requires Tight(s)
    ensures Join(Split(s)) == s
  {
    SplitIsPieces(s);
    PiecesJoinTight(s, 0);
  }
}
