/** Expansion of $(VAR) references in strings of bytes.

    Sources: pkg/common/expand.go. */
module Expand {
  newtype byte = x: int | 0 <= x < 256

  type Text = seq<byte>

  const DOLLAR: byte := 36
  const OPEN: byte := 40
  const CLOSE: byte := 41

  type Mapping = Text -> Text

  function SyntaxWrap(name: Text): Text {
    [DOLLAR, OPEN] + name + [CLOSE]
  }

  /** The mapping function that MappingFuncFor returns: the first map that has the name
      decides; an unknown name maps to its own reference. */
  function Resolve(context: seq<map<Text, Text>>, name: Text): (v: Text)
    ensures (forall i :: 0 <= i < |context| ==> name !in context[i]) ==> v == SyntaxWrap(name)
    ensures forall i :: 0 <= i < |context| && name in context[i] && (forall j :: 0 <= j < i ==> name !in context[j])
              ==> v == context[i][name]
  {
    if context == [] then SyntaxWrap(name)
    else if name in context[0] then context[0][name]
    else Resolve(context[1..], name)
  }

  function MappingFuncFor(context: seq<map<Text, Text>>): Mapping {
    name => Resolve(context, name)
  }

  /** The UTF-8 encoding of the code point with the value of a single byte: what Go makes of
      string(input[0]). */
  function Utf8(b: byte): (t: Text)
    ensures b < 128 ==> t == [b]
    ensures b >= 128 ==> |t| == 2 && 128 <= t[1] < 192 && 64 * (t[0] as int - 192) + (t[1] as int - 128) == b as int
  {
    if b < 128 then [b] else [192 + b / 64, 128 + b % 64]
  }

  /** Position of the first closer at or after from, or the length of the text. */
  function FirstClose(s: Text, from: nat): (i: nat)
    requires from <= |s|
    ensures from <= i <= |s|
    decreases |s| - from
  {
    if from == |s| || s[from] == CLOSE then from else FirstClose(s, from + 1)
  }

  lemma {:induction false} FirstCloseIs(s: Text, from: nat, i: nat)
    requires from <= i <= |s| && (i < |s| ==> s[i] == CLOSE)
    requires forall j :: from <= j < i ==> s[j] != CLOSE
    ensures FirstClose(s, from) == i
    decreases i - from
  {
    if from < i {
      FirstCloseIs(s, from + 1, i);
    }
  }

  lemma {:induction false} FirstCloseFinds(s: Text, from: nat)
    requires from <= |s|
    ensures FirstClose(s, from) < |s| ==> s[FirstClose(s, from)] == CLOSE
    decreases |s| - from
  {
    if from < |s| && s[from] != CLOSE {
      FirstCloseFinds(s, from + 1);
    }
  }

  // -------------------------------------------------------------- specification

  /** Length of the leading piece of a text: one byte, a $ with the byte after it, or a whole
      reference. */
  function PieceLength(s: Text): (n: nat)
    requires s != []
    ensures 1 <= n <= |s|
  {
    if s[0] != DOLLAR || |s| == 1 then 1
    else if s[1] == OPEN && FirstClose(s, 2) < |s| then FirstClose(s, 2) + 1
    else 2
  }

  /** What the leading piece expands to. */
  function Piece(s: Text, mapping: Mapping): Text
    requires s != []
  {
    if s[0] != DOLLAR || |s| == 1 then [s[0]]
    else if s[1] == DOLLAR then [DOLLAR]
    else if s[1] == OPEN && FirstClose(s, 2) < |s| then mapping(s[2..FirstClose(s, 2)])
    else [DOLLAR] + Utf8(s[1])
  }

  /** The expansion in one pass from left to right. */
  function Expanded(s: Text, mapping: Mapping): Text {
    if s == [] then [] else Piece(s, mapping) + Expanded(s[PieceLength(s)..], mapping)
  }

  // ------------------------------------------------------------- implementation

  method TryReadVariableName(input: Text) returns (read: Text, isVar: bool, advance: nat)
    requires input != []
    ensures 1 <= advance <= |input|
    ensures isVar <==> input[0] == OPEN && FirstClose(input, 1) < |input|
    ensures isVar ==> advance == FirstClose(input, 1) + 1 && read == input[1..advance - 1]
    ensures !isVar ==> advance == 1 && read == if input[0] == DOLLAR then [DOLLAR] else [DOLLAR] + Utf8(input[0])
  {
    if input[0] == DOLLAR {
      return input[0..1], false, 1;
    } else if input[0] == OPEN {
      for i := 1 to |input|
        invariant FirstClose(input, 1) == FirstClose(input, i)
      {
        if input[i] == CLOSE {
          return input[1..i], true, i + 1;
        }
      }
      return [DOLLAR] + [OPEN], false, 1;
    } else {
      return [DOLLAR] + Utf8(input[0]), false, 1;
    }
  }

  /** The closer of a reference at position i of the whole text, seen from the text after $. */
  lemma FirstCloseShift(s: Text, c: nat, from: nat)
    requires c < |s| && 1 <= from <= |s| - c
    ensures FirstClose(s[c..], from) == FirstClose(s[c + 1..], from - 1) + 1
    decreases |s| - c - from
  {
    if from < |s| - c && s[c + from] != CLOSE {
      FirstCloseShift(s, c, from + 1);
    }
  }

  /** What TryReadVariableName reads after a $ is the leading piece. */
  lemma ReadIsPiece(s: Text, read: Text, isVar: bool, advance: nat, mapping: Mapping)
    requires |s| >= 2 && s[0] == DOLLAR && 1 <= advance < |s|
    requires isVar <==> s[1] == OPEN && FirstClose(s[1..], 1) < |s| - 1
    requires isVar ==> advance == FirstClose(s[1..], 1) + 1 && read == s[1..][1..advance - 1]
    requires !isVar ==> advance == 1 && read == if s[1] == DOLLAR then [DOLLAR] else [DOLLAR] + Utf8(s[1])
    ensures PieceLength(s) == advance + 1
    ensures Piece(s, mapping) == if isVar then mapping(read) else read
  {
    FirstCloseShift(s, 0, 2);
    assert s[0..] == s;
    if isVar {
      assert read == s[2..FirstClose(s, 2)];
    }
  }

  /** The expansion of the text from the cursor on. */
  function ExpandedFrom(s: Text, mapping: Mapping, cursor: nat): Text
    requires cursor <= |s|
    decreases |s| - cursor
  {
    if cursor == |s| then []
    else Piece(s[cursor..], mapping) + ExpandedFrom(s, mapping, cursor + PieceLength(s[cursor..]))
  }

  lemma {:induction false} ExpandedFromIsExpanded(s: Text, mapping: Mapping, cursor: nat)
    requires cursor <= |s|
    ensures ExpandedFrom(s, mapping, cursor) == Expanded(s[cursor..], mapping)
    decreases |s| - cursor
  {
    if cursor < |s| {
      var n := PieceLength(s[cursor..]);
      assert s[cursor..][n..] == s[cursor + n..];
      ExpandedFromIsExpanded(s, mapping, cursor + n);
    }
  }

  /** Buffer, unwritten text and the expansion still to come make up the total. */
  ghost predicate Progress(total: Text, s: Text, mapping: Mapping, buf: Text, checkpoint: nat, cursor: nat) {
    && checkpoint <= cursor <= |s|
    && total == (buf + s[checkpoint..cursor]) + ExpandedFrom(s, mapping, cursor)
  }

  lemma ProgressStart(s: Text, mapping: Mapping)
    ensures Progress(Expanded(s, mapping), s, mapping, [], 0, 0)
  {
    ExpandedFromIsExpanded(s, mapping, 0);
    assert s[0..] == s;
  }

  /** A byte that starts no piece of its own is left for the next write. */
  lemma ProgressCopy(total: Text, s: Text, mapping: Mapping, buf: Text, checkpoint: nat, cursor: nat)
    requires Progress(total, s, mapping, buf, checkpoint, cursor)
    requires cursor < |s| && (s[cursor] != DOLLAR || cursor + 1 == |s|)
    ensures Progress(total, s, mapping, buf, checkpoint, cursor + 1)
  {
    CopyStep(s, mapping, cursor);
    SliceSnoc(s, checkpoint, cursor);
    RegroupCopy(buf, s[checkpoint..cursor], [s[cursor]], ExpandedFrom(s, mapping, cursor + 1));
  }

  /** A piece is written together with the text before it. */
  lemma ProgressPiece(total: Text, s: Text, mapping: Mapping, buf: Text, checkpoint: nat, cursor: nat,
                      text: Text, advance: nat)
    requires Progress(total, s, mapping, buf, checkpoint, cursor) && cursor < |s|
    requires text == Piece(s[cursor..], mapping) && advance + 1 == PieceLength(s[cursor..])
    ensures Progress(total, s, mapping, buf + s[checkpoint..cursor] + text, cursor + advance + 1, cursor + advance + 1)
  {
    var next := cursor + advance + 1;
    assert ExpandedFrom(s, mapping, cursor) == text + ExpandedFrom(s, mapping, next) by {
      FromStep(s, mapping, cursor, advance + 1);
    }
    Regroup(buf + s[checkpoint..cursor], text, s[next..next], ExpandedFrom(s, mapping, next));
  }

  lemma CopyStep(s: Text, mapping: Mapping, cursor: nat)
    requires cursor < |s| && (s[cursor] != DOLLAR || cursor + 1 == |s|)
    ensures ExpandedFrom(s, mapping, cursor) == [s[cursor]] + ExpandedFrom(s, mapping, cursor + 1)
  {
    FromStep(s, mapping, cursor, 1);
  }

  lemma SliceSnoc(s: Text, i: nat, j: nat)
    requires i <= j < |s|
    ensures s[i..j + 1] == s[i..j] + [s[j]]
  {
  }

  lemma FromStep(s: Text, mapping: Mapping, cursor: nat, n: nat)
    requires cursor < |s| && n == PieceLength(s[cursor..])
    ensures ExpandedFrom(s, mapping, cursor) == Piece(s[cursor..], mapping) + ExpandedFrom(s, mapping, cursor + n)
  {
  }

  lemma RegroupCopy(a: Text, b: Text, c: Text, d: Text)
    ensures (a + b) + (c + d) == (a + (b + c)) + d
  {
  }

  lemma Regroup(a: Text, b: Text, empty: Text, c: Text)
    requires empty == []
    ensures a + (b + c) == ((a + b) + empty) + c
  {
    assert (a + b) + empty == a + b;
  }

  lemma ProgressEnd(total: Text, s: Text, mapping: Mapping, buf: Text, checkpoint: nat)
    requires Progress(total, s, mapping, buf, checkpoint, |s|)
    ensures buf + s[checkpoint..] == total
  {
    assert s[checkpoint..|s|] == s[checkpoint..];
  }

  lemma Glue(a: Text, b: Text, c: Text)
    ensures a + (b + c) == (a + b) + c
  {
  }

  /** What the loop writes for a text that starts with $, and how far it moves the cursor. */
  method ReadOne(rest: Text, mapping: Mapping) returns (text: Text, advance: nat)
    requires |rest| >= 2 && rest[0] == DOLLAR
    ensures text == Piece(rest, mapping) && advance + 1 == PieceLength(rest)
  {
    var read, isVar;
    read, isVar, advance := TryReadVariableName(rest[1..]);
    ReadIsPiece(rest, read, isVar, advance, mapping);
    text := if isVar then mapping(read) else read;
  }

  /** The loop body at a $ that is not the last byte: write the text before it and what it
      starts, and move cursor and checkpoint behind that. */
  method WritePiece(ghost total: Text, input: Text, mapping: Mapping, buf: Text, checkpoint: nat, cursor: nat)
    returns (written: Text, next: nat)
    requires Progress(total, input, mapping, buf, checkpoint, cursor)
    requires cursor + 1 < |input| && input[cursor] == DOLLAR
    ensures cursor < next && Progress(total, input, mapping, written, next, next)
  {
    var text, advance := ReadOne(input[cursor..], mapping);
    written := buf + input[checkpoint..cursor] + text;
    next := cursor + advance + 1;
    ProgressPiece(total, input, mapping, buf, checkpoint, cursor, text, advance);
  }

  /** The cursor, checkpoint and buffer loop refines the one-pass specification. */
  method Expand(input: Text, mapping: Mapping) returns (r: Text)
    ensures r == Expanded(input, mapping)
  {
    var buf: Text := [];
    var checkpoint: nat := 0;
    var cursor: nat := 0;
    ghost var total := Expanded(input, mapping);
    ProgressStart(input, mapping);
    while cursor < |input|
      invariant Progress(total, input, mapping, buf, checkpoint, cursor)
    {
      if input[cursor] == DOLLAR && cursor + 1 < |input| {
        buf, cursor := WritePiece(total, input, mapping, buf, checkpoint, cursor);
        checkpoint := cursor;
      } else {
        ProgressCopy(total, input, mapping, buf, checkpoint, cursor);
        cursor := cursor + 1;
      }
    }
    ProgressEnd(total, input, mapping, buf, checkpoint);
    r := buf + input[checkpoint..];
  }

  // ----------------------------------------------------------------- properties

  /** Every $ doubled. */
  function Doubled(s: Text): Text {
    if s == [] then [] else (if s[0] == DOLLAR then [DOLLAR, DOLLAR] else [s[0]]) + Doubled(s[1..])
  }

  /** Doubling escapes any text: expansion gives it back under every mapping. */
  lemma {:induction false} DoublingEscapes(s: Text, mapping: Mapping)
    ensures Expanded(Doubled(s), mapping) == s
  {
    if s != [] {
      DoublingEscapes(s[1..], mapping);
      if s[0] == DOLLAR {
        assert Doubled(s)[2..] == Doubled(s[1..]);
      } else {
        assert Doubled(s)[1..] == Doubled(s[1..]);
      }
    }
  }

  /** Read from left to right, no $ outside a reference is followed by a second $ or by a byte
      outside ASCII. */
  predicate Kept(s: Text) {
    s == [] || (PairKept(s) && Kept(s[PieceLength(s)..]))
  }

  predicate PairKept(s: Text) {
    |s| >= 2 && s[0] == DOLLAR ==> s[1] != DOLLAR && s[1] < 128
  }

  lemma PieceStays(s: Text)
    requires PairKept(s) && s != []
    ensures Piece(s, MappingFuncFor([])) == s[..PieceLength(s)]
  {
    if |s| >= 2 && s[0] == DOLLAR {
      if s[1] == OPEN && FirstClose(s, 2) < |s| {
        var i := FirstClose(s, 2);
        FirstCloseFinds(s, 2);
        assert SyntaxWrap(s[2..i]) == s[..i + 1];
      } else {
        assert s[..2] == [DOLLAR] + Utf8(s[1]);
      }
    }
  }

  function Dollars(k: nat): (r: Text)
    ensures |r| == k && forall i :: 0 <= i < k ==> r[i] == DOLLAR
  {
    if k == 0 then [] else [DOLLAR] + Dollars(k - 1)
  }

  /** The first two bytes of an expansion are those of the text, unless the text starts with a
      pair that is not kept. */
  lemma FirstTwo(s: Text)
    requires PairKept(s) && s != []
    ensures var e := Expanded(s, MappingFuncFor([]));
      e != [] && e[0] == s[0] && (|s| >= 2 && s[0] == DOLLAR ==> |e| >= 2 && e[1] == s[1])
  {
    PieceStays(s);
    NextPiece(s, MappingFuncFor([]), PieceLength(s));
  }

  lemma DollarsShift(s: Text, k: nat)
    requires |s| >= 2 && s[0] == DOLLAR && s[1] == DOLLAR && k >= 1
    ensures (Dollars(k) + s)[1..] == Dollars(k + 1) + s[2..]
  {
  }

  /** No later piece makes up for a dropped $. */
  lemma {:induction false} NoDollarGained(s: Text, k: nat)
    requires k >= 1
    ensures Expanded(s, MappingFuncFor([])) != Dollars(k) + s
    decreases |s|
  {
    var e, longer := Expanded(s, MappingFuncFor([])), Dollars(k) + s;
    if s == [] {
      assert |longer| == k;
    } else {
      NextPiece(s, MappingFuncFor([]), PieceLength(s));
      if PairKept(s) {
        assert e != longer by {
          FirstTwo(s);
          assert longer[0] == DOLLAR && longer[1] == (if k > 1 then DOLLAR else s[0]);
          assert |s| == 1 ==> s[1..] == [] && e == [s[0]];
        }
      } else if s[1] == DOLLAR {
        NoDollarGained(s[2..], k + 1);
        DollarsShift(s, k);
        assert e[1..] == Expanded(s[2..], MappingFuncFor([]));
      } else {
        assert e[1] == Utf8(s[1])[0] != DOLLAR;
        assert longer[1] == DOLLAR;
      }
    }
  }

  /** Nor for a byte too many. */
  lemma {:induction false} NoByteLost(s: Text, c: byte)
    requires c != DOLLAR
    ensures s != [c] + Expanded(s, MappingFuncFor([]))
    decreases |s|
  {
    var e := Expanded(s, MappingFuncFor([]));
    if s != [] && s[0] == c {
      NoByteLost(s[1..], c);
      NextPiece(s, MappingFuncFor([]), 1);
      assert e == [c] + Expanded(s[1..], MappingFuncFor([]));
      assert ([c] + e)[1..] == e;
    }
  }

  /** With no mappings, expansion is the identity exactly on kept text: a doubled $ is halved and
      a byte above 127 after a $ is encoded again, and nothing later can undo that. */
  lemma {:induction false} IdentityIff(s: Text)
    ensures Expanded(s, MappingFuncFor([])) == s <==> Kept(s)
    decreases |s|
  {
    if s != [] {
      var n, e := PieceLength(s), Expanded(s, MappingFuncFor([]));
      var rest := Expanded(s[n..], MappingFuncFor([]));
      NextPiece(s, MappingFuncFor([]), n);
      if PairKept(s) {
        PieceStays(s);
        IdentityIff(s[n..]);
        assert s == s[..n] + s[n..] && e[n..] == rest;
      } else if s[1] == DOLLAR {
        HalvedDiffers(s, rest);
      } else {
        ReencodedDiffers(s, rest);
      }
    }
  }

  lemma HalvedDiffers(s: Text, rest: Text)
    requires |s| >= 2 && s[0] == DOLLAR && s[1] == DOLLAR && rest == Expanded(s[2..], MappingFuncFor([]))
    ensures [DOLLAR] + rest != s
  {
    var e := [DOLLAR] + rest;
    NoDollarGained(s[2..], 1);
    assert e[1..] == rest && s[1..] == Dollars(1) + s[2..];
  }

  lemma ReencodedDiffers(s: Text, rest: Text)
    requires |s| >= 2 && s[0] == DOLLAR && s[1] >= 128 && rest == Expanded(s[2..], MappingFuncFor([]))
    ensures [DOLLAR] + Utf8(s[1]) + rest != s
  {
    var e, c := [DOLLAR] + Utf8(s[1]) + rest, Utf8(s[1])[1];
    NoByteLost(s[2..], c);
    assert e[2..] == [c] + rest;
  }

  /** No $ is followed by a second $ or by a byte outside ASCII. */
  predicate Plain(s: Text) {
    forall i :: 0 <= i < |s| - 1 && s[i] == DOLLAR ==> s[i + 1] != DOLLAR && s[i + 1] < 128
  }

  /** In particular it is the identity on plain text. */
  lemma {:induction false} IdentityOnPlain(s: Text)
    requires Plain(s)
    ensures Expanded(s, MappingFuncFor([])) == s
    decreases |s|
  {
    if s != [] {
      PieceStays(s);
      IdentityOnPlain(s[PieceLength(s)..]);
    }
  }

  /** Text without $ is copied. */
  lemma {:induction false} PlainPrefixStays(before: Text, rest: Text, mapping: Mapping)
    requires DOLLAR !in before
    ensures Expanded(before + rest, mapping) == before + Expanded(rest, mapping)
  {
    if before == [] {
      assert before + rest == rest;
    } else {
      NextPiece(before + rest, mapping, 1);
      assert (before + rest)[1..] == before[1..] + rest;
      PlainPrefixStays(before[1..], rest, mapping);
      assert before == [before[0]] + before[1..];
      Glue([before[0]], before[1..], Expanded(rest, mapping));
    }
  }

  /** A reference is replaced by its value, and neither the value nor the text before it is
      expanded again. */
  lemma ReferenceIsReplaced(before: Text, name: Text, after: Text, mapping: Mapping)
    requires DOLLAR !in before && CLOSE !in name
    ensures Expanded(before + (SyntaxWrap(name) + after), mapping) ==
            before + (mapping(name) + Expanded(after, mapping))
  {
    PlainPrefixStays(before, SyntaxWrap(name) + after, mapping);
    ReferenceAtStart(name, after, mapping);
  }

  lemma ReferenceAtStart(name: Text, after: Text, mapping: Mapping)
    requires CLOSE !in name
    ensures Expanded(SyntaxWrap(name) + after, mapping) == mapping(name) + Expanded(after, mapping)
  {
    ReferencePiece(name, after, mapping);
    NextPiece(SyntaxWrap(name) + after, mapping, |SyntaxWrap(name)|);
  }

  lemma NextPiece(s: Text, mapping: Mapping, n: nat)
    requires s != [] && PieceLength(s) == n
    ensures Expanded(s, mapping) == Piece(s, mapping) + Expanded(s[n..], mapping)
  {
  }

  lemma ReferencePiece(name: Text, after: Text, mapping: Mapping)
    requires CLOSE !in name
    ensures var s := SyntaxWrap(name) + after;
      Piece(s, mapping) == mapping(name) && s[PieceLength(s)..] == after
  {
    var s := SyntaxWrap(name) + after;
    assert s[2..2 + |name|] == name;
    assert s[2 + |name|] == CLOSE;
    assert forall j :: 2 <= j < 2 + |name| ==> s[j] == name[j - 2];
    FirstCloseIs(s, 2, 2 + |name|);
  }
}
