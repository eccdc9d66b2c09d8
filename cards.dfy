/** Cards as paigow.cpp holds them: a rank mask with the single bit of the
    rank set (bit 0 for a two, ..., bit 12 for an ace) and a suit index.
    Parsing from the two-character text codes, and the print tables that
    invert it. */
module Cards {
  import opened Masks

  /** The print tables: the rank character of bit r, and the suit character
      of suit index s. */
  const RankChars: string := "23456789XJQKA"
  const SuitChars: string := "CDHS"

  type Suit = s: nat | s < 4

  /** value is the rank mask; an unknown rank character gives the empty
      mask (the source's 0 sentinel). */
  datatype Card = Card(value: set<nat>, suit: Suit)

  /** A card whose mask holds exactly one rank bit among the thirteen ranks. */
  predicate ValidCard(c: Card)
  {
    PopCount(c.value) > 0 && Ctz(c.value) < 13 && c.value == {Ctz(c.value)}
  }

  /** The rank (0 = two, ..., 12 = ace) of a valid card: its mask's lowest bit. */
  function Rank(c: Card): nat
    requires ValidCard(c)
  {
    Ctz(c.value)
  }

  /** The card of rank r and suit s is valid and has rank r. */
  lemma RankCard(r: nat, s: Suit)
    requires r < 13
    ensures ValidCard(Card({r}, s)) && Rank(Card({r}, s)) == r
  {
    CountSingleton(r, 0, Width);
    var l := Lowest({r}, 0, Width);
    assert l in {r};
  }

  /** ParseCard: the first character selects the rank bit, the second the
      suit; characters outside the tables give the empty mask and suit 0. */
  function ParseCard(rankChar: char, suitChar: char): (c: Card)
    ensures forall i :: 0 <= i < 13 ==> (rankChar == RankChars[i] <==> c.value == {i})
    ensures rankChar !in RankChars ==> c.value == {}
    ensures suitChar in SuitChars ==> SuitChars[c.suit] == suitChar
    ensures suitChar !in SuitChars ==> c.suit == 0
  {
    var value: set<nat> := match rankChar
      case '2' => {0}
      case '3' => {1}
      case '4' => {2}
      case '5' => {3}
      case '6' => {4}
      case '7' => {5}
      case '8' => {6}
      case '9' => {7}
      case 'X' => {8}
      case 'J' => {9}
      case 'Q' => {10}
      case 'K' => {11}
      case 'A' => {12}
      case _ => {};
    var suit: Suit := match suitChar
      case 'C' => 0
      case 'D' => 1
      case 'H' => 2
      case 'S' => 3
      case _ => 0;
    Card(value, suit)
  }

  /** PrintCard: the rank character at the mask's lowest bit and the suit
      character at the suit index. */
  function CardCode(c: Card): string
    requires ValidCard(c)
  {
    [RankChars[Rank(c)], SuitChars[c.suit]]
  }

  /** Printing a valid card and parsing the code gives the card back. */
  lemma ParseOfCode(c: Card)
    requires ValidCard(c)
    ensures ParseCard(CardCode(c)[0], CardCode(c)[1]) == c
  {
    var r := Rank(c);
    var d := ParseCard(RankChars[r], SuitChars[c.suit]);
    assert d.value == {r};
    assert SuitChars[d.suit] == SuitChars[c.suit];
  }

  /** Parsing a code from the tables gives a valid card that prints back as
      the same code. */
  lemma CodeOfParse(rankChar: char, suitChar: char)
    requires rankChar in RankChars && suitChar in SuitChars
    ensures ValidCard(ParseCard(rankChar, suitChar))
    ensures CardCode(ParseCard(rankChar, suitChar)) == [rankChar, suitChar]
  {
    var c := ParseCard(rankChar, suitChar);
    var i :| 0 <= i < 13 && RankChars[i] == rankChar;
    RankCard(i, c.suit);
  }

  // ---------------------------------------------------------------------
  // Hands

  /** The line without its one trailing newline, if it has one. */
  function Body(line: string): string
  {
    if |line| > 0 && line[|line| - 1] == '\n' then line[..|line| - 1] else line
  }

  /** One card per two-character chunk. */
  function ParsedHand(body: string): (cards: seq<Card>)
    requires |body| % 2 == 0
    ensures |cards| == |body| / 2
    ensures forall j :: 0 <= j < |cards| ==> cards[j] == ParseCard(body[2 * j], body[2 * j + 1])
  {
    if |body| == 0 then [] else [ParseCard(body[0], body[1])] + ParsedHand(body[2..])
  }

  /** The codes of a hand, written one after the other. */
  function HandText(cards: seq<Card>): (s: string)
    requires forall j :: 0 <= j < |cards| ==> ValidCard(cards[j])
    ensures |s| == 2 * |cards|
  {
    var codes := seq(|cards|, j requires 0 <= j < |cards| => CardCode(cards[j]));
    ConcatLength(codes);
    Concat(codes)
  }

  /** Chunks written one after the other. */
  function Concat<T>(chunks: seq<seq<T>>): seq<T>
  {
    if |chunks| == 0 then [] else chunks[0] + Concat(chunks[1..])
  }

  lemma {:induction false} ConcatLength<T>(chunks: seq<seq<T>>)
    requires forall i :: 0 <= i < |chunks| ==> |chunks[i]| == 2
    ensures |Concat(chunks)| == 2 * |chunks|
  {
    if |chunks| > 0 {
      ConcatLength(chunks[1..]);
    }
  }

  /** Two-element chunk j sits at positions 2j and 2j + 1 of the text. */
  lemma {:induction false} ConcatAt<T>(chunks: seq<seq<T>>, j: nat)
    requires forall i :: 0 <= i < |chunks| ==> |chunks[i]| == 2
    requires j < |chunks|
    ensures |Concat(chunks)| == 2 * |chunks|
    ensures Concat(chunks)[2 * j] == chunks[j][0]
    ensures Concat(chunks)[2 * j + 1] == chunks[j][1]
  {
    var tail := chunks[1..];
    ConcatLength(chunks);
    ConcatLength(tail);
    if j > 0 {
      ConcatAt(tail, j - 1);
      assert tail[j - 1] == chunks[j];
    }
  }

  /** Card j's code sits at positions 2j and 2j + 1 of the text. */
  lemma HandTextAt(cards: seq<Card>, j: nat)
    requires forall i :: 0 <= i < |cards| ==> ValidCard(cards[i])
    requires j < |cards|
    ensures HandText(cards)[2 * j] == CardCode(cards[j])[0]
    ensures HandText(cards)[2 * j + 1] == CardCode(cards[j])[1]
  {
    ConcatAt(seq(|cards|, i requires 0 <= i < |cards| => CardCode(cards[i])), j);
  }

  /** The characters the parsing loop reads in pairs: the line without its
      newline and, when that has odd length, the NUL written over the
      newline, which becomes the last card's suit character. */
  function Paired(body: string): (t: string)
    ensures |t| % 2 == 0 && |t| == |body| + |body| % 2
  {
    if |body| % 2 == 0 then body else body + "\0"
  }

  /** The buffer as ParseHand sees it after removing the newline: the line
      with its newline overwritten by NUL, then the terminating NUL. */
  function Buffer(line: string): (buf: string)
    requires |line| > 0
    ensures |buf| == |line| + 1
  {
    if line[|line| - 1] == '\n' then line[..|line| - 1] + "\0\0" else line + "\0"
  }

  /** The buffer holds the characters read in pairs, then a NUL; no pair
      of them starts with a NUL. */
  lemma BufferHoldsText(line: string)
    requires |line| > 0 && '\0' !in line
    requires |Body(line)| % 2 == 0 || line[|line| - 1] == '\n'
    ensures PairsThenNul(Buffer(line), Paired(Body(line)))
  {
  }

  /** buf starts with the pairs of text, none of them starting with NUL,
      and has a NUL right after them. */
  ghost predicate PairsThenNul(buf: string, text: string)
  {
    |text| % 2 == 0 && |text| < |buf| && buf[|text|] == '\0'
    && (forall k :: 0 <= k < |text| ==> buf[k] == text[k])
    && (forall k :: 0 <= k < |text| && k % 2 == 0 ==> text[k] != '\0')
  }

  /** ParseHand: overwrite one trailing newline with NUL, then parse the
      buffer (ReadPairs). The line is a C string (no NUL inside it) that is
      not empty. An odd-length body is read safely only when the newline was
      there: its last card takes the NUL over the newline as suit character,
      and the terminating NUL stops the loop; without the newline the loop
      would step over the terminator. */
  method ParseHand(line: string) returns (cards: seq<Card>)
    requires |line| > 0 && '\0' !in line
    requires |Body(line)| % 2 == 0 || line[|line| - 1] == '\n'
    ensures cards == ParsedHand(Paired(Body(line)))
  {
    var buf := line + "\0";
    if line[|line| - 1] == '\n' {
      buf := buf[|line| - 1 := '\0'];
    }
    assert buf == Buffer(line);
    BufferHoldsText(line);
    cards := ReadPairs(buf, Paired(Body(line)));
  }

  /** The loop of ParseHand: a card from each two characters until a NUL
      where a card would start. */
  method ReadPairs(buf: string, ghost text: string) returns (cards: seq<Card>)
    requires PairsThenNul(buf, text)
    ensures cards == ParsedHand(text)
  {
    cards := [];
    var i := 0;
    while buf[i] != '\0'
      invariant 0 <= i <= |text| && i % 2 == 0
      invariant |cards| == i / 2
      invariant forall j :: 0 <= j < |cards| ==> cards[j] == ParseCard(text[2 * j], text[2 * j + 1])
      decreases |text| - i
    {
      cards := cards + [ParseCard(buf[i], buf[i + 1])];
      i := i + 2;
    }
    ParsedHandIs(text, cards);
  }

  /** A sequence of cards that agrees with ParsedHand pair by pair is it. */
  lemma ParsedHandIs(text: string, cards: seq<Card>)
    requires |text| % 2 == 0 && |cards| == |text| / 2
    requires forall j :: 0 <= j < |cards| ==> cards[j] == ParseCard(text[2 * j], text[2 * j + 1])
    ensures cards == ParsedHand(text)
  {
  }

  /** On a newline-terminated line of odd body length, the lone last
      character still makes a card, of suit 0 (the NUL is no suit
      character): the line "ACADAHAS2C3CA" with its newline gives seven
      cards, the last one the ace of clubs. */
  lemma OddLineLastCard(line: string)
    requires |line| > 0 && line[|line| - 1] == '\n' && |Body(line)| % 2 == 1
    ensures |ParsedHand(Paired(Body(line)))| == (|Body(line)| + 1) / 2
    ensures ParsedHand(Paired(Body(line)))[|Body(line)| / 2]
      == ParseCard(line[|line| - 2], '\0')
    ensures ParsedHand(Paired(Body(line)))[|Body(line)| / 2].suit == 0
  {
  }

  /** The text of a hand of valid cards, with the newline fgets leaves on
      it, parses back to the hand. */
  lemma ParseHandText(cards: seq<Card>)
    requires forall j :: 0 <= j < |cards| ==> ValidCard(cards[j])
    ensures |Body(HandText(cards) + "\n")| % 2 == 0
    ensures ParsedHand(Paired(Body(HandText(cards) + "\n"))) == cards
  {
    var text := HandText(cards);
    assert Body(text + "\n") == text;
    assert Paired(text) == text;
    var parsed := ParsedHand(text);
    forall j | 0 <= j < |cards|
      ensures parsed[j] == cards[j]
    {
      HandTextAt(cards, j);
      ParseOfCode(cards[j]);
    }
  }
}
