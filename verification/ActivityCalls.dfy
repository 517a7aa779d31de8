/** One `log_activity` call: its arguments, the detail object and the row it prepares. */
module ActivityCalls {
  import opened Options
  import opened ActivityModel

  // The arguments of one call, with the clock reading and the repository name it looked up.
  datatype Call = Call(tag: Tag, path: string, oldPath: Option<Value>, size: Option<Value>, objId: Option<Value>,
                       oldRepoName: Option<Value>, days: Option<Value>, repoName: string, commit: string, now: int)

  function DetailMap(c: Call): Item {
    CommonDetail(c.size, c.objId, c.path, c.repoName, c.oldPath)
    + Optional(OldRepoName, c.oldRepoName) + Optional(Days, c.days)
  }

  function NewRow(c: Call): Row {
    Row(c.tag, false, c.path, c.oldPath, c.commit, c.now, Lone(DetailMap(c)))
  }

  ghost function CallEntries(c: Call): multiset<Entry> { RowEntries(NewRow(c)) }

  predicate HasRoom(db: Db, choice: Option<nat>) {
    choice.Some? && choice.value in db.rows && ItemCount(db.rows[choice.value].detail) < MAX_ITEMS
  }

  // The row a call writes back: the array it read, and its own item at the end.
  function Rewrite(row: Row, snapshot: Detail, c: Call): Row {
    Aggregated(row, ParseDetail(snapshot, COMMON) + [DetailMap(c)], c.now)
  }

  /** Appending to a row as it is stores exactly the call's item more. */
  lemma FreshWriteStores(db: Db, id: nat, c: Call)
    requires id in db.rows && db.rows[id].tag == c.tag && c.tag.op.Aggregates()
    ensures Stored(Update(db, id, Rewrite(db.rows[id], db.rows[id].detail, c))) == Stored(db) + CallEntries(c)
  {
    var row := db.rows[id];
    AggregatedEntries(row, COMMON, [DetailMap(c)], c.now);
    EntriesOne(row.tag, DetailMap(c));
    LoneEntries(NewRow(c));
    StoredGrow(db, id, Rewrite(row, row.detail, c), CallEntries(c));
  }
}
