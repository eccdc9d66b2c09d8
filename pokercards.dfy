/** poker.py's cards: each card is its two-character text code, kept as a
    string. card_value reads the face value off the first character, and
    parse_hands cuts each pair of input lines into the player's and the
    dealer's cards. Python exceptions become Failure results. */
module PokerCards {
  import opened Wrappers
  import opened Cards

  /** The exceptions poker.py raises on the paths modelled here. */
  datatype PyError = IndexError | ValueError | Cheat

  /** A card's face value is the position of its first character here:
      the digits are their own values, then X (ten), J, Q, K, A are
      10..14. */
  const FaceChars: string := "0123456789XJQKA"

  /** The position of the first occurrence of c in s. */
  function IndexOf(s: string, c: char): (r: nat)
    requires c in s
    ensures r < |s| && s[r] == c
    ensures forall j :: 0 <= j < r ==> s[j] != c
  {
    if s[0] == c then 0 else 1 + IndexOf(s[1..], c)
  }

  /** card_value: str.index raises ValueError for a character that is not in
      the string, and card[0] raises IndexError on an empty code. */
  function CardValue(card: string): Result<nat, PyError>
  {
    if |card| == 0 then Failure(IndexError)
    else if card[0] !in FaceChars then Failure(ValueError)
    else Success(IndexOf(FaceChars, card[0]))
  }

  /** The face value read character by character: the digits are their own
      values, X (ten), J, Q, K, A are 10..14, and any other character has
      none (-1). */
  function FaceIndex(c: char): (v: int)
    ensures -1 <= v < 15
  {
    if '0' <= c <= '9' then c as int - '0' as int
    else if c == 'X' then 10
    else if c == 'J' then 11
    else if c == 'Q' then 12
    else if c == 'K' then 13
    else if c == 'A' then 14
    else -1
  }

  /** The face table and the character-by-character reading agree: a
      character is in the table exactly when it has a face value, and its
      position in the table is that value. */
  lemma FaceIndexIsPosition(c: char)
    ensures c in FaceChars <==> FaceIndex(c) >= 0
    ensures c in FaceChars ==> IndexOf(FaceChars, c) == FaceIndex(c)
  {
    if c in FaceChars {
      var v := IndexOf(FaceChars, c);
      TableFaces(v);
    } else if FaceIndex(c) >= 0 {
      FacesInTable(c);
      assert false;
    }
  }

  /** The character at position v of the table has face value v. */
  lemma TableFaces(v: nat)
    requires v < 15
    ensures FaceIndex(FaceChars[v]) == v
  {
  }

  /** A character with a face value sits at that position of the table. */
  lemma FacesInTable(c: char)
    requires FaceIndex(c) >= 0
    ensures FaceChars[FaceIndex(c)] == c
  {
  }

  /** card_value, read character by character: IndexError on an empty
      code, ValueError on a first character with no face value, and
      otherwise that face value. */
  function FaceOf(card: string): Result<nat, PyError>
  {
    if |card| == 0 then Failure(IndexError)
    else if FaceIndex(card[0]) < 0 then Failure(ValueError)
    else Success(FaceIndex(card[0]))
  }

  /** card_value and its character-by-character reading agree on every
      code. */
  lemma CardValueTable(card: string)
    ensures CardValue(card) == FaceOf(card)
  {
    if |card| > 0 {
      FaceIndexIsPosition(card[0]);
    }
  }

  /** A code card_value accepts. */
  predicate HasFace(card: string)
  {
    |card| > 0 && FaceIndex(card[0]) >= 0
  }

  /** The face value of a code card_value accepts. */
  function Face(card: string): (v: nat)
    requires HasFace(card)
    ensures v < 15
  {
    FaceIndex(card[0])
  }

  /** card_value as a sort key, where it is defined. */
  function FaceKey(card: string): int
  {
    if HasFace(card) then Face(card) else 0
  }

  // ---------------------------------------------------------------------
  // parse_hands

  /** [line[j:j+2] for j in xrange(0, len(line), 2)]: the line cut into
      two-character codes; Python's slice stops at the end of the line, so
      an odd-length line ends with a one-character piece. */
  function Chunks(line: string): (cs: seq<string>)
  {
    seq((|line| + 1) / 2, j requires 0 <= j < (|line| + 1) / 2 =>
      line[2 * j .. if 2 * j + 2 <= |line| then 2 * j + 2 else |line|])
  }

  /** The pieces of a line put back together give the line, and every piece
      but a last odd one is two characters long. */
  lemma {:induction false} ChunksRoundTrip(line: string)
    ensures Concat(Chunks(line)) == line
    ensures forall j :: 0 <= j < |Chunks(line)| ==>
      |Chunks(line)[j]| == (if 2 * j + 2 <= |line| then 2 else 1)
    decreases |line|
  {
    var cs := Chunks(line);
    if |line| > 2 {
      var rest := line[2..];
      ChunksRoundTrip(rest);
      var cr := Chunks(rest);
      assert |cs| == |cr| + 1;
      forall j | 1 <= j < |cs|
        ensures cs[j] == cr[j - 1]
      {
        ChunkShift(line, j);
      }
      assert cs == [cs[0]] + cr;
      assert cs[0] == line[..2];
      assert cs[1..] == cr;
      assert line == line[..2] + rest;
    } else if |line| > 0 {
      assert |cs| == 1 && cs[0] == line[0..|line|];
      assert cs[1..] == [];
    }
  }

  /** Piece j of a line is piece j - 1 of the line without its first two
      characters. */
  lemma ChunkShift(line: string, j: nat)
    requires |line| > 2 && 1 <= j < (|line| + 1) / 2
    ensures Chunks(line)[j] == Chunks(line[2..])[j - 1]
  {
    var e := if 2 * j + 2 <= |line| then 2 * j + 2 else |line|;
    assert Chunks(line)[j] == line[2 * j .. e];
    assert Chunks(line[2..])[j - 1] == line[2..][2 * j - 2 .. e - 2];
    forall k | 0 <= k < e - 2 * j
      ensures line[2..][2 * j - 2 .. e - 2][k] == line[2 * j .. e][k]
    {
    }
  }

  /** One game: the player's cards and the dealer's cards. */
  type Game = (seq<string>, seq<string>)

  /** parse_hands: lines 2i and 2i+1 give game i. With an odd number of
      lines the loop reads past the last line and raises IndexError. */
  function ParseHands(lines: seq<string>): Result<seq<Game>, PyError>
  {
    if |lines| % 2 == 1 then Failure(IndexError)
    else Success(seq(|lines| / 2, i requires 0 <= i < |lines| / 2 =>
      (Chunks(lines[2 * i]), Chunks(lines[2 * i + 1]))))
  }

  /** parse_hands fails exactly on an odd number of lines; otherwise it
      gives one game per pair of lines, and joining each side's codes gives
      back its line. */
  lemma ParseHandsRoundTrip(lines: seq<string>)
    ensures ParseHands(lines).Failure? <==> |lines| % 2 == 1
    ensures ParseHands(lines).Success? ==>
      var games := ParseHands(lines).value;
      && 2 * |games| == |lines|
      && forall i :: 0 <= i < |games| ==>
           Concat(games[i].0) == lines[2 * i] && Concat(games[i].1) == lines[2 * i + 1]
  {
    if |lines| % 2 == 0 {
      var games := ParseHands(lines).value;
      forall i | 0 <= i < |games|
        ensures Concat(games[i].0) == lines[2 * i] && Concat(games[i].1) == lines[2 * i + 1]
      {
        ChunksRoundTrip(lines[2 * i]);
        ChunksRoundTrip(lines[2 * i + 1]);
      }
    }
  }
}
