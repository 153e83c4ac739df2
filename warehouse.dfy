/**
 * The warehouse side: the table descriptor the pipeline works on and the
 * statements it sends to the target connection. Statements are values;
 * nothing here simulates what the warehouse does with them.
 */
module Warehouse {

  import opened ObjectKeys

  /**
   * A table to replicate. The target name and the two column renderings
   * are computed elsewhere and are opaque strings here.
   */
  datatype Table = Table(
    name: string,
    targetName: string,
    columnsForCopy: string,
    columnsForCreate: string)

  datatype Statement =
    | CreateTableIfNotExists(table: string, columns: string)
    | DropTableIfExists(table: string)
    | Begin
    | RenameTable(from: string, to: string)
    | CreateTable(table: string, columns: string)
    | CopyFrom(table: string, key: Key)
    | Commit

  /** Name the live table is moved to while its replacement is loaded. */
  function UpdatingName(target: string): (n: string)
    ensures target < n
  {
    target + "_updating"
  }

  /** The rename-swap load of one table, in the order it is issued. */
  function LoadStatements(t: Table): seq<Statement> {
    [ DropTableIfExists(UpdatingName(t.targetName)),
      Begin,
      RenameTable(t.targetName, UpdatingName(t.targetName)),
      CreateTable(t.targetName, t.columnsForCreate),
      CopyFrom(t.targetName, ExportKey(t.targetName)),
      Commit ]
  }

  /**
   * The swap: the leftover `_updating` table is dropped before the
   * transaction opens; inside the one transaction the live table is moved
   * to exactly the name that was dropped, a fresh table is created under
   * the live name and loaded from the unsuffixed export key; then it
   * commits. Nothing else is issued.
   */
  lemma RenameSwapOrder(t: Table)
    ensures var ss := LoadStatements(t);
      && |ss| == 6
      && ss[0] == DropTableIfExists(UpdatingName(t.targetName)) && ss[1] == Begin && ss[|ss| - 1] == Commit
      && (forall i :: 1 < i < |ss| - 1 ==> ss[i] != Begin && ss[i] != Commit)
      && ss[2].RenameTable? && ss[2].to == ss[0].table && ss[2].from == t.targetName
      && ss[2].from != ss[2].to
      && ss[3] == CreateTable(ss[2].from, t.columnsForCreate)
      && ss[4] == CopyFrom(ss[3].table, ExportKey(t.targetName))
  {
  }
}
