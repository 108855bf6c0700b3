/** Tokens as the 'Semantic Tokens' section of the Language Server Protocol 3.17 has them,
    each relative to the one before. */
module Tokens {
  import opened Texts
  import opened Unicode

  /** A token of the text, from character `start` up to `end`, with its type and modifiers. */
  datatype Token = Token(start: nat, end: nat, kind: nat, modifiers: nat)

  datatype Relative = Relative(deltaLine: nat, deltaStart: nat, length: nat, kind: nat, modifiers: nat)

  datatype Absolute = Absolute(line: nat, start: nat, length: nat, kind: nat, modifiers: nat)

  /** What a client makes of the data, after a token at `line` and `start`. */
  function Decode(data: seq<Relative>, line: nat, start: nat): seq<Absolute> {
    if data == [] then []
    else
      var r := data[0];
      var line' := line + r.deltaLine;
      var start' := if r.deltaLine == 0 then start + r.deltaStart else r.deltaStart;
      [Absolute(line', start', r.length, r.kind, r.modifiers)] + Decode(data[1..], line', start')
  }

  /** Where the last token decoded is. */
  function DecodedTo(data: seq<Relative>, line: nat, start: nat): Position {
    if data == [] then Position(line, start)
    else
      var r := data[0];
      DecodedTo(data[1..], line + r.deltaLine, if r.deltaLine == 0 then start + r.deltaStart else r.deltaStart)
  }

  lemma {:induction false} DecodeAppend(data: seq<Relative>, r: Relative, line: nat, start: nat)
    ensures var to := DecodedTo(data, line, start);
            var next := Position(to.line + r.deltaLine,
                                 if r.deltaLine == 0 then to.character + r.deltaStart else r.deltaStart);
            && Decode(data + [r], line, start)
               == Decode(data, line, start) + [Absolute(next.line, next.character, r.length, r.kind, r.modifiers)]
            && DecodedTo(data + [r], line, start) == next
  {
    if data == [] {
      assert [] + [r] == [r] && [r][1..] == [];
    } else {
      var first := data[0];
      assert (data + [r])[0] == first && (data + [r])[1..] == data[1..] + [r];
      DecodeAppend(data[1..], r, line + first.deltaLine,
                   if first.deltaLine == 0 then start + first.deltaStart else first.deltaStart);
    }
  }

  predicate InText(text: Text, token: Token) {
    token.start <= |text| && token.end <= |text|
  }

  /** The token has a character, and no newline is inside it. */
  predicate OnOneLine(text: Text, token: Token)
    requires InText(text, token)
  {
    token.start < token.end && forall k :: token.start <= k < token.end ==> text[k] != 10
  }

  /** A character is on the line of an earlier one when no newline is between them, else on a later one. */
  lemma {:induction false} LineReached(text: Text, m: nat, n: nat)
    requires m <= n <= |text|
    ensures PositionOf(text, m).line <= PositionOf(text, n).line
    ensures PositionOf(text, m).line == PositionOf(text, n).line <==> forall k :: m <= k < n ==> text[k] != 10
    decreases n
  {
    if m < n {
      LineReached(text, m, n - 1);
      PositionStep(text, n - 1);
    }
  }

  /** Exactly those tokens are sent. */
  lemma IsSentIff(text: Text, token: Token)
    requires InText(text, token)
    ensures IsSent(text, token) <==> OnOneLine(text, token)
  {
    if token.start < token.end {
      PositionsAscend(text, token.start, token.end);
      LineReached(text, token.start, token.end);
    } else if token.end < token.start {
      PositionsAscend(text, token.end, token.start);
    }
  }

  /** Whether a token is sent: it ends on its line, past its start. */
  predicate IsSent(text: Text, token: Token)
    requires InText(text, token)
  {
    var start, end := PositionOf(text, token.start), PositionOf(text, token.end);
    end.line == start.line && start.character < end.character
  }

  function AbsoluteOf(text: Text, token: Token): Absolute
    requires InText(text, token) && OnOneLine(text, token)
  {
    IsSentIff(text, token);
    var start, end := PositionOf(text, token.start), PositionOf(text, token.end);
    Absolute(start.line, start.character, end.character - start.character, token.kind, token.modifiers)
  }

  /** The tokens sent, where they are in the text: those with a character and no newline inside. */
  function Sent(text: Text, tokens: seq<Token>): seq<Absolute>
    requires forall t :: t in tokens ==> InText(text, t)
  {
    if tokens == [] then []
    else
      var last := tokens[|tokens| - 1];
      Sent(text, tokens[..|tokens| - 1]) + if OnOneLine(text, last) then [AbsoluteOf(text, last)] else []
  }

  /** In source order. */
  ghost predicate InOrder(tokens: seq<Token>) {
    forall i, j :: 0 <= i < j < |tokens| ==> tokens[i].start <= tokens[j].start
  }

  /** The last token sent does not come after character `n`. */
  predicate UpTo(text: Text, previous: Position, n: nat)
    requires n <= |text|
  {
    previous == PositionOf(text, n) || Before(previous, PositionOf(text, n))
  }

  lemma StaysUpTo(text: Text, previous: Position, m: nat, n: nat)
    requires m <= n <= |text| && UpTo(text, previous, m)
    ensures UpTo(text, previous, n)
  {
    if m < n { PositionsAscend(text, m, n); }
  }

  /** A token relative to the one sent before it, which does not come after it. */
  function RelativeOf(text: Text, previous: Position, token: Token): Relative
    requires InText(text, token) && IsSent(text, token) && UpTo(text, previous, token.start)
  {
    var start, end := PositionOf(text, token.start), PositionOf(text, token.end);
    var deltaLine: nat := start.line - previous.line;
    var deltaStart: nat := if deltaLine == 0 then start.character - previous.character else start.character;
    Relative(deltaLine, deltaStart, end.character - start.character, token.kind, token.modifiers)
  }

  /** The data so far decodes to the tokens sent among the first `n`. */
  ghost predicate Encoded(text: Text, tokens: seq<Token>, n: nat, data: seq<Relative>, previous: Position)
    requires forall t :: t in tokens ==> InText(text, t)
  {
    && n <= |tokens| && (forall t :: t in tokens[..n] ==> InText(text, t))
    && Decode(data, 0, 0) == Sent(text, tokens[..n]) && DecodedTo(data, 0, 0) == previous
  }

  lemma EncodeOneMore(text: Text, tokens: seq<Token>, n: nat, data: seq<Relative>, previous: Position)
    requires (forall t :: t in tokens ==> InText(text, t)) && n < |tokens| && Encoded(text, tokens, n, data, previous)
    requires InText(text, tokens[n]) && UpTo(text, previous, tokens[n].start)
    ensures !IsSent(text, tokens[n]) ==> Encoded(text, tokens, n + 1, data, previous)
    ensures IsSent(text, tokens[n]) ==>
              Encoded(text, tokens, n + 1, data + [RelativeOf(text, previous, tokens[n])],
                      PositionOf(text, tokens[n].start))
  {
    var token := tokens[n];
    IsSentIff(text, token);
    assert tokens[..n + 1][..n] == tokens[..n] && tokens[..n + 1][n] == token;
    if IsSent(text, token) { DecodeAppend(data, RelativeOf(text, previous, token), 0, 0); }
  }

  /** Tokens in source order, as they are sent: no difference is ever negative, and a client
      that adds them up again gets where each token is. */
  method Encode(text: Text, tokens: seq<Token>) returns (data: seq<Relative>)
    requires InOrder(tokens) && forall t :: t in tokens ==> InText(text, t)
    ensures Decode(data, 0, 0) == Sent(text, tokens)
  {
    data := [];
    var previous, i := Position(0, 0), 0;
    ghost var reached: nat := 0;
    assert text[..0] == [];
    while i < |tokens|
      invariant 0 <= i <= |tokens| && Encoded(text, tokens, i, data, previous)
      invariant reached <= |text| && UpTo(text, previous, reached) && (i < |tokens| ==> reached <= tokens[i].start)
    {
      var token := tokens[i];
      assert token in tokens;
      StaysUpTo(text, previous, reached, token.start);
      EncodeOneMore(text, tokens, i, data, previous);
      reached := token.start;
      if IsSent(text, token) {
        data := data + [RelativeOf(text, previous, token)];
        previous := PositionOf(text, token.start);
      }
      i := i + 1;
    }
    assert tokens[..i] == tokens;
  }
}
