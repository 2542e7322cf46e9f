/**
 * The Swing state the handlers read and write: the attribute check boxes,
 * the cells of a DefaultTableModel, and the ArrayList<String> objects the
 * report view hands to its delete and modify panels by reference.
 */
module Widgets {
  import opened JavaText

  /** A JCheckBox: its label and whether it is ticked. */
  datatype CheckBox = CheckBox(text: string, selected: bool)

  /** The labels of the ticked boxes, in box order. */
  function Checked(boxes: seq<CheckBox>): (labels: seq<string>)
    ensures |labels| <= |boxes|
  {
    if boxes == [] then []
    else Checked(boxes[..|boxes| - 1]) + (if boxes[|boxes| - 1].selected then [boxes[|boxes| - 1].text] else [])
  }

  /** A label is collected exactly when some ticked box carries it. */
  lemma {:induction false} CheckedLabels(boxes: seq<CheckBox>)
    ensures forall l :: l in Checked(boxes) <==> exists i :: 0 <= i < |boxes| && boxes[i].selected && boxes[i].text == l
  {
    if boxes != [] {
      var init := boxes[..|boxes| - 1];
      CheckedLabels(init);
      assert forall i :: 0 <= i < |init| ==> init[i] == boxes[i];
    }
  }

  /** No label is collected exactly when no box is ticked. */
  lemma {:induction false} CheckedEmpty(boxes: seq<CheckBox>)
    ensures Checked(boxes) == [] <==> forall i :: 0 <= i < |boxes| ==> !boxes[i].selected
  {
    if boxes != [] {
      var init := boxes[..|boxes| - 1];
      CheckedEmpty(init);
      assert forall i :: 0 <= i < |init| ==> init[i] == boxes[i];
    }
  }

  /** A table cell: a Boolean, a String, a Character or null. */
  datatype Cell = BoolCell(b: bool) | TextCell(s: string) | CharCell(c: char) | NullCell

  /** A DefaultTableModel: its column names, its rows, and whether column 0 is an editable check column. */
  datatype TableModel = TableModel(columns: seq<string>, rows: seq<seq<Cell>>, checkColumn: bool)

  /**
   * addRow stores a row cut or padded with nulls to the column count, as
   * DefaultTableModel.justifyRows does.
   */
  function Justify(row: seq<Cell>, width: nat): (r: seq<Cell>)
    ensures |r| == width
    ensures forall i :: 0 <= i < width ==> r[i] == (if i < |row| then row[i] else NullCell)
  {
    if |row| >= width then row[..width] else row + Repeat(NullCell, width - |row|)
  }

  /** A java.util.List<String> object that several components may hold at once. */
  class StringList {
    var items: seq<string>

    /** new ArrayList<>(). */
    constructor ()
      ensures items == []
    {
      items := [];
    }

    /** clear(). */
    method Clear()
      modifies this
      ensures items == []
    {
      items := [];
    }

    /** add(s). */
    method Add(s: string)
      modifies this
      ensures items == old(items) + [s]
    {
      items := items + [s];
    }
  }
}
