/** The bytes on the pipes and the text in the output file, written out. */
module Layout {
  import opened Common
  import opened Bytes
  import opened Seats
  import opened Ems
  import opened Numbers
  import opened Output
  import opened Wire

  /** Later bytes weigh more: one more byte adds its value times the next power of 256. */
  lemma {:induction false} DecodeSnoc(b: seq<byte>, c: byte)
    ensures Decode(b + [c]) == Decode(b) + c * Pow256(|b|)
  {
    if b == [] {
      assert [c][1..] == [];
    } else {
      assert (b + [c])[1..] == b[1..] + [c];
      DecodeSnoc(b[1..], c);
      assert 256 * (c * Pow256(|b| - 1)) == c * Pow256(|b|);
    }
  }

  /** The three integer types hold their value, a negative int as two's complement. */
  lemma Values(u: uint, z: size, i: int32)
    ensures Decode(UintBytes(u)) == u && Decode(SizeBytes(z)) == z
    ensures Decode(IntBytes(i)) == if i < 0 then i + 0x1_0000_0000 else i
  {
    Widths();
    DecodeEncode(u, 4);
    DecodeEncode(z, 8);
    DecodeEncode(if i < 0 then i + 0x1_0000_0000 else i, 4);
  }

  lemma SmallUint(v: nat)
    requires v < 256
    ensures UintBytes(v) == [v, 0, 0, 0] && IntBytes(v) == [v, 0, 0, 0]
  {
    ZeroBytes(3);
    assert Encode(v, 4) == [v] + Encode(0, 3);
  }

  lemma SmallSize(v: nat)
    requires v < 256
    ensures SizeBytes(v) == [v, 0, 0, 0, 0, 0, 0, 0]
  {
    ZeroBytes(7);
    assert Encode(v, 8) == [v] + Encode(0, 7);
  }

  lemma {:induction false} ZeroBytes(width: nat)
    ensures Encode(0, width) == seq(width, i => 0)
  {
    if width > 0 { ZeroBytes(width - 1); }
  }

  /** A negative int is two's complement. */
  lemma MinusOne()
    ensures IntBytes(-1) == [255, 255, 255, 255]
  {
    assert Encode(0xFFFF_FFFF, 4) == [255] + Encode(0xFF_FFFF, 3);
    assert Encode(0xFF_FFFF, 3) == [255] + Encode(0xFFFF, 2);
    assert Encode(0xFFFF, 2) == [255] + Encode(0xFF, 1);
    assert Encode(0xFF, 1) == [255] + Encode(0, 0);
  }

  lemma CreateLayout(session: nat, id: nat, rows: nat, cols: nat)
    requires session < 256 && id < 256 && rows < 256 && cols < 256
    ensures rows * cols <= SIZE_MAX
    ensures EncodeRequest(session, Create(id, rows, cols))
         == [3] + ([session, 0, 0, 0]
            + ([id, 0, 0, 0] + ([rows, 0, 0, 0, 0, 0, 0, 0] + [cols, 0, 0, 0, 0, 0, 0, 0])))
  {
    ParsedDimensionsFit(rows, cols);
    SmallUint(session);
    SmallUint(id);
    SmallSize(rows);
    SmallSize(cols);
    hide IntBytes, UintBytes, SizeBytes;
  }

  /** All rows come before all columns. */
  lemma ReserveLayout(session: nat, id: nat, a: nat, b: nat, c: nat, d: nat)
    requires session < 256 && id < 256 && a < 256 && b < 256 && c < 256 && d < 256
    ensures EncodeRequest(session, Reserve(id, [Seat(a, b), Seat(c, d)]))
         == [4] + ([session, 0, 0, 0] + ([id, 0, 0, 0] + ([2, 0, 0, 0, 0, 0, 0, 0]
            + (([a, 0, 0, 0, 0, 0, 0, 0] + [c, 0, 0, 0, 0, 0, 0, 0])
               + ([b, 0, 0, 0, 0, 0, 0, 0] + [d, 0, 0, 0, 0, 0, 0, 0])))))
  {
    var req := [Seat(a, b), Seat(c, d)];
    SmallUint(session);
    SmallUint(id);
    SmallSize(2);
    TwoSizes(a, c);
    TwoSizes(b, d);
    assert Rows(req) == [a, c] && Cols(req) == [b, d];
    hide IntBytes, UintBytes, SizeBytes, SizesBytes, Rows, Cols;
  }

  lemma TwoSizes(x: nat, y: nat)
    requires x < 256 && y < 256
    ensures SizesBytes([x, y]) == [x, 0, 0, 0, 0, 0, 0, 0] + [y, 0, 0, 0, 0, 0, 0, 0]
  {
    SmallSize(x);
    SmallSize(y);
    assert [x, y][1..] == [y] && [y][1..] == [];
    assert SizesBytes([y]) == SizeBytes(y) + [];
    hide SizeBytes;
  }

  lemma OtherLayouts(session: nat, id: nat)
    requires session < 256 && id < 256
    ensures EncodeRequest(session, Show(id)) == [5] + ([session, 0, 0, 0] + [id, 0, 0, 0])
    ensures EncodeRequest(session, ListEvents) == [6] + [session, 0, 0, 0]
    ensures EncodeQuit(session) == [2] + [session, 0, 0, 0]
  {
    SmallUint(session);
    SmallUint(id);
    hide IntBytes, UintBytes;
  }

  lemma ReplyLayout(rows: nat, cols: nat, x: nat, y: nat)
    requires rows < 256 && cols < 256 && x < 256 && y < 256
    ensures EncodeReply(Code(0)) == [0, 0, 0, 0] && EncodeReply(Code(1)) == [1, 0, 0, 0]
    ensures EncodeReply(Code(2)) == [2, 0, 0, 0]
    ensures EncodeReply(Matrix(rows, cols, [x, y]))
         == [0, 0, 0, 0] + ([rows, 0, 0, 0, 0, 0, 0, 0]
            + ([cols, 0, 0, 0, 0, 0, 0, 0] + ([x, 0, 0, 0] + [y, 0, 0, 0])))
    ensures EncodeReply(Ids(2, [x, y]))
         == [0, 0, 0, 0] + ([2, 0, 0, 0, 0, 0, 0, 0] + ([x, 0, 0, 0] + [y, 0, 0, 0]))
  {
    SmallUint(0);
    SmallUint(1);
    SmallUint(2);
    SmallSize(rows);
    SmallSize(cols);
    SmallSize(2);
    TwoUints(x, y);
    hide IntBytes, UintBytes, SizeBytes, UintsBytes;
  }

  lemma TwoUints(x: nat, y: nat)
    requires x < 256 && y < 256
    ensures UintsBytes([x, y]) == [x, 0, 0, 0] + [y, 0, 0, 0]
  {
    SmallUint(x);
    SmallUint(y);
    assert [x, y][1..] == [y] && [y][1..] == [];
    assert UintsBytes([y]) == UintBytes(y) + [];
    hide UintBytes;
  }

  /** What is printed for two seats of a row, for two events and for none. */
  lemma PrintedLayout(x: uint, y: uint)
    ensures RowsText([x, y], 1, 2) == Decimal(x) + (" " + (Decimal(y) + (" " + "\n")))
    ensures IdsText([x, y]) == "Event: " + (Decimal(x) + ("\n" + ("Event: " + (Decimal(y) + "\n"))))
    ensures Render(Op.ListEvents, Code(2)) == "No events\n"
  {
    hide Decimal;
    assert [x, y][1..] == [y] && [y][1..] == [] && [x, y][..2] == [x, y] && [x, y][2..] == [];
    assert RowText([]) == "" && RowText([y]) == Decimal(y) + (" " + RowText([]));
    assert RowText([x, y]) == Decimal(x) + (" " + RowText([y]));
    assert RowsText([], 0, 2) == "";
    assert " " + "" == " " && "\n" + "" == "\n" && "" + "\n" == "\n";
    assert IdsText([y]) == "Event: " + (Decimal(y) + "\n");
    Associate(Decimal(x), " " + (Decimal(y) + " "), "\n");
    Associate(" ", Decimal(y) + " ", "\n");
    Associate(Decimal(y), " ", "\n");
  }
}
