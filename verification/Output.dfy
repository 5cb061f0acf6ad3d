/** What the client prints for a reply (api.c), as text. */
module Output {
  import opened Common
  import opened Ems
  import opened Numbers

  /** Each number is followed by a space, the last one of a row too. */
  function RowText(cells: seq<uint>): seq<char> {
    if cells == [] then "" else Decimal(cells[0]) + (" " + RowText(cells[1..]))
  }

  function RowsText(cells: seq<uint>, rows: nat, cols: nat): seq<char>
    requires |cells| == rows * cols
  {
    if rows == 0 then "" else
      assert |cells| - cols == (rows - 1) * cols >= 0;
      RowText(cells[..cols]) + ("\n" + RowsText(cells[cols..], rows - 1, cols))
  }

  function IdsText(ids: seq<uint>): seq<char> {
    if ids == [] then "\n"
    else "Event: " + (Decimal(ids[0]) + ((if |ids| > 1 then "\n" else "") + IdsText(ids[1..])))
  }

  /** What one operation adds to the output file. */
  function Render(op: Op, reply: Reply): seq<char>
    requires reply.Matrix? ==> |reply.cells| == reply.rows * reply.cols
  {
    match reply
    case Code(code) => if op.ListEvents? && code == 2 then "No events\n" else ""
    case Matrix(rows, cols, cells) => RowsText(cells, rows, cols)
    case Ids(_, ids) => IdsText(ids)
  }
}
