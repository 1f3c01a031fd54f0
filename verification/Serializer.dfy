/** GetSerializedExpression: the loops that build the string, and the extent of what they build. */
module Serializer {
  import opened Bytes
  import opened Bytecode
  import opened Extents
  import opened Pieces
  import opened Arithmetic
  import opened Expressions

  function Prepend<M>(done: seq<Piece>, rest: Outcome<M, seq<Piece>>): Outcome<M, seq<Piece>> {
    var (parts, m) :- rest;
    Ok(done + parts, m)
  }

  lemma ToPiecesStep<M>(mem: Memory<M>, done: seq<Piece>, pieces: seq<Expression>, m: Machine<M>)
    requires pieces != []
    ensures var part := ToPiece(mem, pieces[0], m);
            Prepend(done, ToPieces(mem, pieces, m)) ==
            if part.Ok? then Prepend(done + [part.value], ToPieces(mem, pieces[1..], part.machine))
            else part.PropagateFailure()
  {
    hide ToPiece;
    var part := ToPiece(mem, pieces[0], m);
    if part.Ok? {
      var others := ToPieces(mem, pieces[1..], part.machine);
      if others.Ok? {
        assert done + ([part.value] + others.value) == done + [part.value] + others.value;
      }
    }
  }

  lemma {:induction false} PrintAllAppend(parts: seq<Piece>, last: Piece)
    ensures PrintAll(parts + [last]) == PrintAll(parts) + Print(last)
    ensures PrintWrapped(parts + [last]) == PrintWrapped(parts) + ([LPAREN] + Print(last) + [RPAREN])
  {
    hide Print;
    var all := parts + [last];
    if parts == [] {
      assert all[1..] == [];
      assert PrintWrapped(all) == [LPAREN] + Print(last) + [RPAREN] + [];
    } else {
      assert all[1..] == parts[1..] + [last];
      PrintAllAppend(parts[1..], last);
    }
  }

  method GetSerializedExpression<M>(mem: Memory<M>, e: Expression, m: Machine<M>)
    returns (result: Outcome<M, seq<byte>>)
    ensures result == Printed(ToPiece(mem, e, m))
    decreases e
  {
    hide PerformBinaryOperationOn;
    match e
    case StringConstant(text) => return Ok(Quote(text), m);
    case Complex(pieces) => result := SerializeComplex(mem, pieces, m);
    case Special(tag, pieces) => result := SerializeSpecial(mem, tag, pieces, m);
    case MemoryReference(bank, location) =>
      if IsStringLocation(bank) {
        var address := Eval(mem, location, m);
        return Quoted(if address.Ok? then ReadText(mem, bank, address.value, address.machine)
                      else address.PropagateFailure());
      }
      return InBytecode(Eval(mem, e, m));
    case SimpleMemRef(bank, address) =>
      if IsStringLocation(bank) {
        return Quoted(ReadText(mem, bank, address, m));
      }
      return InBytecode(Eval(mem, e, m));
    case _ => return InBytecode(Eval(mem, e, m));
  }

  function InBytecode<M>(outcome: Outcome<M, int32>): Outcome<M, seq<byte>> {
    var (v, m) :- outcome;
    Ok(IntToBytecode(v), m)
  }

  function Quoted<M>(outcome: Outcome<M, seq<byte>>): Outcome<M, seq<byte>> {
    var (s, m) :- outcome;
    Ok(Quote(s), m)
  }

  method SerializeComplex<M>(mem: Memory<M>, pieces: seq<Expression>, m: Machine<M>)
    returns (result: Outcome<M, seq<byte>>)
    ensures var parts := ToPieces(mem, pieces, m);
            result == if parts.Ok? then Ok(Print(ComplexPiece(parts.value)), parts.machine)
                      else parts.PropagateFailure()
    decreases pieces
  {
    hide ToPiece, ToPieces, Prepend, Print, PrintAll, PrintWrapped;
    ghost var all, done := ToPieces(mem, pieces, m), [];
    NothingDone(all);
    NoParts();
    assert pieces[0..] == pieces;
    var s, cur := [LPAREN], m;
    for i := 0 to |pieces|
      invariant all == Prepend(done, ToPieces(mem, pieces[i..], cur))
      invariant s == [LPAREN] + PrintWrapped(done)
    {
      ToPiecesStep(mem, done, pieces[i..], cur);
      assert pieces[i..][1..] == pieces[i + 1..];
      var text := GetSerializedExpression(mem, pieces[i], cur);
      if text.IsFailure() {
        return text.PropagateFailure();
      }
      ghost var part := ToPiece(mem, pieces[i], cur).value;
      PrintAllAppend(done, part);
      done := done + [part];
      s := s + ([LPAREN] + text.value + [RPAREN]);
      cur := text.machine;
    }
    NothingLeft(mem, done, pieces[|pieces|..], cur);
    s := s + [RPAREN];
    PrintedComplex(done);
    result := Ok(s, cur);
  }

  lemma PrintedComplex(parts: seq<Piece>)
    ensures Print(ComplexPiece(parts)) == [LPAREN] + PrintWrapped(parts) + [RPAREN]
  {
    hide PrintAll, PrintWrapped;
  }

  lemma PrintedSpecial(tag: byte, parts: seq<Piece>)
    ensures Print(SpecialPiece(tag, parts)) ==
            if |parts| > 1 then [LOWER_A, tag] + [LPAREN] + PrintAll(parts) + [RPAREN]
            else [LOWER_A, tag] + PrintAll(parts)
  {
    hide PrintAll, PrintWrapped;
    var text := PrintAll(parts);
    assert [LOWER_A, tag] + ([LPAREN] + text + [RPAREN]) == [LOWER_A, tag] + [LPAREN] + text + [RPAREN];
  }

  method SerializeSpecial<M>(mem: Memory<M>, tag: int, pieces: seq<Expression>, m: Machine<M>)
    returns (result: Outcome<M, seq<byte>>)
    ensures var parts := ToPieces(mem, pieces, m);
            result == if parts.Ok? then Ok(Print(SpecialPiece(tag % 0x100, parts.value)), parts.machine)
                      else parts.PropagateFailure()
    decreases pieces
  {
    hide ToPiece, ToPieces, Prepend, Print, PrintAll, PrintWrapped;
    ghost var all, done := ToPieces(mem, pieces, m), [];
    NothingDone(all);
    NoParts();
    assert pieces[0..] == pieces;
    var s, cur := [LOWER_A, tag % 0x100], m;
    if |pieces| > 1 {
      s := s + [LPAREN];
    }
    ghost var head := s;
    for i := 0 to |pieces|
      invariant |done| == i
      invariant all == Prepend(done, ToPieces(mem, pieces[i..], cur))
      invariant s == head + PrintAll(done)
    {
      ToPiecesStep(mem, done, pieces[i..], cur);
      assert pieces[i..][1..] == pieces[i + 1..];
      var text := GetSerializedExpression(mem, pieces[i], cur);
      if text.IsFailure() {
        return text.PropagateFailure();
      }
      ghost var part := ToPiece(mem, pieces[i], cur).value;
      PrintAllAppend(done, part);
      done := done + [part];
      s := s + text.value;
      cur := text.machine;
    }
    NothingLeft(mem, done, pieces[|pieces|..], cur);
    if |pieces| > 1 {
      s := s + [RPAREN];
    }
    PrintedSpecial(tag % 0x100, done);
    result := Ok(s, cur);
  }

  lemma NothingLeft<M>(mem: Memory<M>, done: seq<Piece>, pieces: seq<Expression>, m: Machine<M>)
    requires pieces == []
    ensures Prepend(done, ToPieces(mem, pieces, m)) == Ok(done, m)
  {
    assert done + [] == done;
  }

  lemma NothingDone<M>(rest: Outcome<M, seq<Piece>>)
    ensures Prepend([], rest) == rest
  {
    if rest.Ok? {
      assert [] + rest.value == rest.value;
    }
  }

  // ------------------------------------------------------------------------------------------ extents

  /** A serialised parameter is read back to its last byte: NextData on it, followed by anything but an operator,
      returns the serialised length, for every memory and machine, if and only if it does not end in a tag with nothing
      behind it or nothing follows that could be taken for its parameter. */
  lemma SerializedExtent<M>(mem: Memory<M>, e: Expression, m: Machine<M>, rest: seq<byte>)
    requires At(rest, 0) != BACKSLASH
    requires ToPiece(mem, e, m).Ok? && Scannable(ToPiece(mem, e, m).value)
    ensures var text := Printed(ToPiece(mem, e, m)).value;
            DataExtent(text + rest) == Some(|text|) <==>
            !EndsInTag(ToPiece(mem, e, m).value) || DataExtent(rest) == Some(0)
  {
    hide ToPiece, Scannable, DataExtent, Print, EndsInTag;
    PieceExtent(ToPiece(mem, e, m).value, rest);
  }

  /** A special parameter with parts, all the way down, ends in no tag. */
  predicate SpecialsFilled(e: Expression) {
    e.Special? ==> e.pieces != [] && forall p <- e.pieces :: SpecialsFilled(p)
  }

  lemma {:induction false} FilledEndsInNoTag<M>(mem: Memory<M>, e: Expression, m: Machine<M>)
    requires SpecialsFilled(e) && ToPiece(mem, e, m).Ok?
    ensures !EndsInTag(ToPiece(mem, e, m).value)
  {
    hide Eval;
    if e.Special? {
      var first := ToPiece(mem, e.pieces[0], m);
      var others := ToPieces(mem, e.pieces[1..], first.machine);
      assert ToPiece(mem, e, m).value.parts == [first.value] + others.value;
      FilledEndsInNoTag(mem, e.pieces[0], m);
    }
  }
}
