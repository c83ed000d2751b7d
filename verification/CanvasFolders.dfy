/** Folders of an organization: sort keys in rows that behave as one list. */
module CanvasFolders {
  import opened Options
  import opened Text

  datatype Folder = Folder(title: string, color: string, sortOrder: int, createdAt: int)
  type Rows = map<nat, Folder>

  datatype Outcome = Done | TitleRequired | TitleTooLong | InvalidColor | TitleAlreadyExists | NotFound | InvalidDirection

  const TITLE_MAX_LENGTH := 128
  const COLORS: seq<string> := ["blue", "green", "purple", "slate", "orange"]

  // ----- the order of rows -----

  /** Lower keys first, then later creation, then the greater id. */
  predicate Before(rows: Rows, a: nat, b: nat)
    requires a in rows && b in rows
  {
    || rows[a].sortOrder < rows[b].sortOrder
    || (rows[a].sortOrder == rows[b].sortOrder
        && (rows[a].createdAt > rows[b].createdAt || (rows[a].createdAt == rows[b].createdAt && a > b)))
  }

  predicate ComesFirst(rows: Rows, id: nat) {
    id in rows && forall other :: other in rows && other != id ==> Before(rows, id, other)
  }

  lemma {:induction false} SomeComesFirst(rows: Rows)
    requires rows != map[]
    ensures exists id :: ComesFirst(rows, id)
    decreases |rows|
  {
    var id :| id in rows;
    var rest := rows - {id};
    if rest != map[] {
      SomeComesFirst(rest);
      var first :| ComesFirst(rest, first);
      if Before(rows, first, id) {
        assert forall other :: other in rows && other != first && other != id ==> other in rest;
        assert ComesFirst(rows, first);
      } else {
        assert forall other :: other in rows && other != id ==> other in rest;
        assert ComesFirst(rows, id);
      }
    } else {
      assert forall other :: other in rows && other != id ==> other in rest;
      assert ComesFirst(rows, id);
    }
  }

  function First(rows: Rows): (id: nat)
    requires rows != map[]
    ensures ComesFirst(rows, id)
  {
    SomeComesFirst(rows);
    var id :| ComesFirst(rows, id);
    id
  }

  /** The ids in the order of the query that lists the folders. */
  function Listing(rows: Rows): seq<nat>
    decreases |rows|
  {
    if rows == map[] then [] else [First(rows)] + Listing(rows - {First(rows)})
  }

  predicate OrderedAt(rows: Rows, ids: seq<nat>, i: nat, j: nat)
    requires i < |ids| && j < |ids|
  {
    ids[i] in rows && ids[j] in rows && Before(rows, ids[i], ids[j])
  }

  ghost predicate InOrder(rows: Rows, ids: seq<nat>) {
    forall i, j :: 0 <= i < j < |ids| ==> OrderedAt(rows, ids, i, j)
  }

  ghost predicate SameIds(rows: Rows, ids: seq<nat>) {
    forall id :: id in rows <==> id in ids
  }

  /** The ids of all rows, in order. */
  ghost predicate Lists(rows: Rows, ids: seq<nat>) {
    SameIds(rows, ids) && InOrder(rows, ids)
  }

  lemma {:induction false} ListingLists(rows: Rows)
    ensures Lists(rows, Listing(rows))
    decreases |rows|
  {
    if rows != map[] {
      var first := First(rows);
      var rest := rows - {first};
      var ids := Listing(rest);
      ListingLists(rest);
      assert Listing(rows) == [first] + ids;
      forall i, j | 0 <= i < j < |ids| + 1 ensures OrderedAt(rows, [first] + ids, i, j) {
        if i > 0 {
          assert OrderedAt(rest, ids, i - 1, j - 1);
        } else {
          assert ids[j - 1] in ids;
        }
      }
      assert forall id :: id in rows <==> id == first || id in rest;
    }
  }

  /** There is only one way to list the rows in order. */
  lemma {:induction false} OneListing(rows: Rows, ids: seq<nat>)
    requires Lists(rows, ids)
    ensures ids == Listing(rows)
    decreases |ids|
  {
    if ids == [] {
      assert rows == map[];
    } else {
      FirstOfList(rows, ids);
      RestOfList(rows, ids);
      OneListing(rows - {ids[0]}, ids[1..]);
    }
  }

  lemma FirstOfList(rows: Rows, ids: seq<nat>)
    requires Lists(rows, ids) && ids != []
    ensures rows != map[] && ids[0] == First(rows)
  {
    assert ids[0] in ids;
    forall other | other in rows && other != ids[0] ensures Before(rows, ids[0], other) {
      var i :| 0 <= i < |ids| && ids[i] == other;
      assert OrderedAt(rows, ids, 0, i);
    }
    assert ComesFirst(rows, ids[0]);
  }

  lemma RestOfList(rows: Rows, ids: seq<nat>)
    requires Lists(rows, ids) && ids != []
    ensures Lists(rows - {ids[0]}, ids[1..])
  {
    var rest := rows - {ids[0]};
    forall i, j | 0 <= i < j < |ids[1..]| ensures OrderedAt(rest, ids[1..], i, j) {
      assert OrderedAt(rows, ids, i + 1, j + 1) && OrderedAt(rows, ids, 0, i + 1) && OrderedAt(rows, ids, 0, j + 1);
    }
    NoRepeats(rows, ids);
    forall id ensures id in rest <==> id in ids[1..] {
      assert id in ids <==> id == ids[0] || id in ids[1..];
    }
  }

  lemma NoRepeats(rows: Rows, ids: seq<nat>)
    requires InOrder(rows, ids)
    ensures forall i, j :: 0 <= i < j < |ids| ==> ids[i] != ids[j]
  {
    forall i, j | 0 <= i < j < |ids| ensures ids[i] != ids[j] {
      assert OrderedAt(rows, ids, i, j);
    }
  }

  // ----- operations on the rows -----

  function Utf8Size(c: char): nat {
    if c < '\U{80}' then 1 else if c < '\U{800}' then 2 else if c < '\U{10000}' then 3 else 4
  }

  /** The length of a string in bytes, which is what the limit of a title counts. */
  function ByteLength(s: string): (n: nat)
    ensures n >= |s|
  {
    if s == [] then 0 else Utf8Size(s[0]) + ByteLength(s[1..])
  }

  /** A title takes one to four bytes for each of its characters, as UTF-8 encodes them. */
  lemma {:induction false} ByteLengthIs(front: string, c: char, later: string)
    ensures ByteLength("") == 0
    ensures ByteLength(front + [c] + later)
            == ByteLength(front) + ByteLength(later)
               + if c <= '\U{7F}' then 1 else if c <= '\U{7FF}' then 2 else if c <= '\U{FFFF}' then 3 else 4
  {
    var s := front + [c] + later;
    if front == "" {
      assert s[1..] == later;
    } else {
      ByteLengthIs(front[1..], c, later);
      assert s[1..] == front[1..] + [c] + later;
    }
  }

  predicate TitleTaken(rows: Rows, title: string) {
    exists id :: id in rows && rows[id].title == title
  }

  function TitleOutcome(title: string): Outcome {
    if TrimSpace(title) == "" then TitleRequired
    else if ByteLength(TrimSpace(title)) > TITLE_MAX_LENGTH then TitleTooLong
    else Done
  }

  function NormalColor(color: string): string {
    if color == "" then "blue" else color
  }

  /** What is done to the rows in one step. Save writes every column of a caller's copy, and inserts it if the row is gone. */
  datatype Op =
    | Create(id: nat, title: string, color: string, now: int)
    | Save(id: nat, folder: Folder)
    | Move(id: nat, direction: string)
    | Delete(id: nat)

  function CreateOutcome(rows: Rows, title: string, color: string): Outcome {
    if TitleOutcome(title) != Done then TitleOutcome(title)
    else if color != "" && color !in COLORS then InvalidColor
    else if TitleTaken(rows, TrimSpace(title)) then TitleAlreadyExists
    else Done
  }

  /** What an update finds when it reads the row. */
  function ReadOutcome(rows: Rows, id: nat, title: string, color: string): Outcome {
    if TitleOutcome(title) != Done then TitleOutcome(title)
    else if color != "" && color !in COLORS then InvalidColor
    else if id !in rows then NotFound
    else Done
  }

  /** A folder with a new title and color. */
  function Edited(folder: Folder, title: string, color: string): Folder {
    folder.(title := TrimSpace(title), color := NormalColor(color))
  }

  function SaveOutcome(rows: Rows, id: nat, folder: Folder): Outcome {
    if TitleTaken(rows - {id}, folder.title) then TitleAlreadyExists else Done
  }

  /** How an update ends when nothing happens between its reading and its saving. */
  function UpdateOutcome(rows: Rows, id: nat, title: string, color: string): Outcome {
    if ReadOutcome(rows, id, title, color) != Done then ReadOutcome(rows, id, title, color)
    else SaveOutcome(rows, id, Edited(rows[id], title, color))
  }

  function MoveOutcome(rows: Rows, id: nat, direction: string): Outcome {
    if id !in rows then NotFound
    else if direction != "DIRECTION_UP" && direction != "DIRECTION_DOWN" then InvalidDirection
    else Done
  }

  /** The key that puts a new folder before all others. */
  function NextSortOrder(rows: Rows): (key: int)
    ensures forall id :: id in rows ==> key < rows[id].sortOrder
    ensures if rows == map[] then key == 0 else exists id :: id in rows && key == rows[id].sortOrder - 1
  {
    if rows == map[] then 0 else rows[First(rows)].sortOrder - 1
  }

  function SwapKeys(rows: Rows, a: nat, b: nat): Rows
    requires a in rows && b in rows
  {
    rows[a := rows[a].(sortOrder := rows[b].sortOrder)][b := rows[b].(sortOrder := rows[a].sortOrder)]
  }

  function IndexOf(ids: seq<nat>, id: nat): (i: nat)
    requires id in ids
    ensures i < |ids| && ids[i] == id && id !in ids[..i]
  {
    if ids[0] == id then 0 else IndexOf(ids[1..], id) + 1
  }

  /** Where a move takes the folder at a position, which can be outside the list. */
  function Target(i: nat, direction: string): int {
    if direction == "DIRECTION_UP" then i - 1 else i + 1
  }

  lemma ListedIsRow(rows: Rows)
    ensures forall id :: id in Listing(rows) <==> id in rows
  {
    ListingLists(rows);
  }

  function Position(rows: Rows, id: nat): (i: nat)
    requires id in rows
    ensures i < |Listing(rows)| && Listing(rows)[i] == id
  {
    ListedIsRow(rows);
    IndexOf(Listing(rows), id)
  }

  predicate HasNeighbour(rows: Rows, id: nat, direction: string)
    requires id in rows
  {
    0 <= Target(Position(rows, id), direction) < |Listing(rows)|
  }

  /** The folder listed just before or just after another. */
  function Neighbour(rows: Rows, id: nat, direction: string): (other: nat)
    requires id in rows && HasNeighbour(rows, id, direction)
    ensures other in rows && other != id
  {
    ListingLists(rows);
    NoRepeats(rows, Listing(rows));
    Listing(rows)[Target(Position(rows, id), direction)]
  }

  function Apply(rows: Rows, op: Op): Rows {
    match op
    case Create(id, title, color, now) =>
      if CreateOutcome(rows, title, color) != Done then rows
      else rows[id := Folder(TrimSpace(title), NormalColor(color), NextSortOrder(rows), now)]
    case Save(id, folder) => if SaveOutcome(rows, id, folder) != Done then rows else rows[id := folder]
    case Move(id, direction) =>
      if MoveOutcome(rows, id, direction) != Done then rows
      else if HasNeighbour(rows, id, direction) then SwapKeys(rows, id, Neighbour(rows, id, direction)) else rows
    case Delete(id) => rows - {id}
  }

  // ----- the list -----

  function Swapped(ids: seq<nat>, i: nat, j: nat): seq<nat>
    requires i < |ids| && j < |ids|
  {
    ids[i := ids[j]][j := ids[i]]
  }

  function Without(ids: seq<nat>, id: nat): seq<nat> {
    if id in ids then ids[..IndexOf(ids, id)] + ids[IndexOf(ids, id) + 1..] else ids
  }

  /** What an operation that succeeds does to the list: put in front, swap with a neighbour, or take out. */
  function ApplyToList(ids: seq<nat>, op: Op, succeeds: bool): seq<nat> {
    if !succeeds then ids
    else
      match op
      case Create(id, _, _, _) => [id] + ids
      case Save(_, _) => ids
      case Move(id, direction) =>
        if id !in ids then ids
        else
          var i := IndexOf(ids, id);
          var target := Target(i, direction);
          if target < 0 || target >= |ids| then ids else Swapped(ids, i, target)
      case Delete(id) => Without(ids, id)
  }

  function Succeeds(rows: Rows, op: Op): bool {
    match op
    case Create(_, title, color, _) => CreateOutcome(rows, title, color) == Done
    case Save(id, folder) => SaveOutcome(rows, id, folder) == Done
    case Move(id, direction) => MoveOutcome(rows, id, direction) == Done
    case Delete(id) => id in rows
  }

  ghost predicate DistinctKeys(rows: Rows) {
    forall a, b :: a in rows && b in rows && a != b ==> rows[a].sortOrder != rows[b].sortOrder
  }

  lemma SwapIsListed(rows: Rows, ids: seq<nat>, i: nat, j: nat)
    requires DistinctKeys(rows) && Lists(rows, ids) && i < |ids| && j < |ids| && (j == i + 1 || i == j + 1)
    ensures ids[i] in rows && ids[j] in rows
    ensures DistinctKeys(SwapKeys(rows, ids[i], ids[j])) && Lists(SwapKeys(rows, ids[i], ids[j]), Swapped(ids, i, j))
  {
    assert ids[i] in ids && ids[j] in ids;
    NoRepeats(rows, ids);
    var after, swapped := SwapKeys(rows, ids[i], ids[j]), Swapped(ids, i, j);
    forall k, m | 0 <= k < m < |ids| ensures OrderedAt(after, swapped, k, m) {
      assert OrderedAt(rows, ids, k, m);
      assert after[swapped[k]].sortOrder == rows[ids[k]].sortOrder;
      assert after[swapped[m]].sortOrder == rows[ids[m]].sortOrder;
    }
    SwapKeepsIds(ids, i, j);
    assert forall id :: id in after <==> id in rows;
  }

  lemma SwapKeepsIds(ids: seq<nat>, i: nat, j: nat)
    requires i < |ids| && j < |ids|
    ensures forall id :: id in Swapped(ids, i, j) <==> id in ids
  {
    forall id | id in ids ensures id in Swapped(ids, i, j) {
      var k :| 0 <= k < |ids| && ids[k] == id;
      assert Swapped(ids, i, j)[if k == i then j else if k == j then i else k] == id;
    }
  }

  lemma CreateIsListed(rows: Rows, ids: seq<nat>, id: nat, folder: Folder)
    requires Lists(rows, ids) && id !in rows && folder.sortOrder == NextSortOrder(rows)
    ensures Lists(rows[id := folder], [id] + ids)
    ensures DistinctKeys(rows) ==> DistinctKeys(rows[id := folder])
  {
    var after, longer := rows[id := folder], [id] + ids;
    forall i, j | 0 <= i < j < |longer| ensures OrderedAt(after, longer, i, j) {
      assert ids[j - 1] in ids;
      if i > 0 {
        assert OrderedAt(rows, ids, i - 1, j - 1) && ids[i - 1] in ids;
      }
    }
  }

  lemma DeleteIsListed(rows: Rows, ids: seq<nat>, id: nat)
    requires Lists(rows, ids) && id in rows
    ensures Lists(rows - {id}, Without(ids, id))
  {
    var after, rest := rows - {id}, Without(ids, id);
    NoRepeats(rows, ids);
    WithoutKeepsOthers(ids, id);
    forall k, m | 0 <= k < m < |rest| ensures OrderedAt(after, rest, k, m) {
      var k', m' := WithoutKeepsOrder(ids, id, k, m);
      assert OrderedAt(rows, ids, k', m') && rest[k] in rest && rest[m] in rest;
    }
  }

  lemma WithoutKeepsOrder(ids: seq<nat>, id: nat, k: nat, m: nat) returns (k': nat, m': nat)
    requires id in ids && k < m < |Without(ids, id)|
    ensures k' < m' < |ids| && Without(ids, id)[k] == ids[k'] && Without(ids, id)[m] == ids[m']
  {
    var i := IndexOf(ids, id);
    k', m' := if k < i then k else k + 1, if m < i then m else m + 1;
  }

  lemma WithoutKeepsOthers(ids: seq<nat>, id: nat)
    requires id in ids && forall k, m :: 0 <= k < m < |ids| ==> ids[k] != ids[m]
    ensures forall other :: other in Without(ids, id) <==> other in ids && other != id
  {
    var i, rest := IndexOf(ids, id), Without(ids, id);
    forall other | other in ids && other != id ensures other in rest {
      var k :| 0 <= k < |ids| && ids[k] == other;
      assert rest[if k < i then k else k - 1] == other;
    }
  }

  /** Writing this key to the row puts it where it is: the row exists, and the key lies between the same neighbours. */
  ghost predicate Harmless(rows: Rows, id: nat, key: int) {
    && id in rows
    && forall other :: other in rows && other != id ==>
         rows[other].sortOrder != key && (rows[other].sortOrder < key <==> rows[other].sortOrder < rows[id].sortOrder)
  }

  lemma UpToDateKeyIsHarmless(rows: Rows, id: nat)
    requires DistinctKeys(rows) && id in rows
    ensures Harmless(rows, id, rows[id].sortOrder)
  {
  }

  lemma HarmlessSaveIsListed(rows: Rows, ids: seq<nat>, id: nat, folder: Folder)
    requires DistinctKeys(rows) && Lists(rows, ids) && Harmless(rows, id, folder.sortOrder)
    ensures DistinctKeys(rows[id := folder]) && Lists(rows[id := folder], ids)
  {
    var after := rows[id := folder];
    NoRepeats(rows, ids);
    forall i, j | 0 <= i < j < |ids| ensures OrderedAt(after, ids, i, j) {
      assert OrderedAt(rows, ids, i, j);
    }
  }

  lemma ListedKeysCompare(rows: Rows, ids: seq<nat>, i: nat, j: nat)
    requires DistinctKeys(rows) && Lists(rows, ids) && i < |ids| && j < |ids| && i != j
    ensures ids[i] in rows && ids[j] in rows && (rows[ids[i]].sortOrder < rows[ids[j]].sortOrder <==> i < j)
  {
    assert ids[i] in ids && ids[j] in ids;
    NoRepeats(rows, ids);
    if i < j {
      assert OrderedAt(rows, ids, i, j);
    } else {
      assert OrderedAt(rows, ids, j, i);
    }
  }

  lemma ListedSaveIsHarmless(rows: Rows, ids: seq<nat>, id: nat, folder: Folder)
    requires DistinctKeys(rows) && Lists(rows, ids)
    requires DistinctKeys(rows[id := folder]) && Lists(rows[id := folder], ids)
    ensures Harmless(rows, id, folder.sortOrder)
  {
    var after := rows[id := folder];
    assert id in after && id in ids;
    var j :| 0 <= j < |ids| && ids[j] == id;
    forall other | other in rows && other != id
      ensures rows[other].sortOrder != folder.sortOrder
              && (rows[other].sortOrder < folder.sortOrder <==> rows[other].sortOrder < rows[id].sortOrder)
    {
      var i :| 0 <= i < |ids| && ids[i] == other;
      ListedKeysCompare(rows, ids, i, j);
      ListedKeysCompare(after, ids, i, j);
    }
  }

  /** A save leaves the keys distinct and the list as it is, exactly when the key it writes is harmless. */
  lemma SaveKeepsListIff(rows: Rows, id: nat, folder: Folder)
    requires DistinctKeys(rows) && SaveOutcome(rows, id, folder) == Done
    ensures DistinctKeys(Apply(rows, Save(id, folder))) && Listing(Apply(rows, Save(id, folder))) == Listing(rows)
            <==> Harmless(rows, id, folder.sortOrder)
  {
    var ids, after := Listing(rows), rows[id := folder];
    ListingLists(rows);
    ListingLists(after);
    if Harmless(rows, id, folder.sortOrder) {
      HarmlessSaveIsListed(rows, ids, id, folder);
      OneListing(after, ids);
    } else if DistinctKeys(after) && Listing(after) == ids {
      ListedSaveIsHarmless(rows, ids, id, folder);
    }
  }

  /** A save that writes nothing, or a key that is harmless. */
  ghost predicate SaveIsHarmless(rows: Rows, op: Op) {
    op.Save? && Succeeds(rows, op) ==> Harmless(rows, op.id, op.folder.sortOrder)
  }

  /** One step on rows with distinct keys is the step on their list, and keeps the keys distinct, unless it is a save whose
      key is not harmless. */
  lemma OpRefinesListIff(rows: Rows, op: Op)
    requires DistinctKeys(rows) && (op.Create? ==> op.id !in rows)
    ensures DistinctKeys(Apply(rows, op)) && Listing(Apply(rows, op)) == ApplyToList(Listing(rows), op, Succeeds(rows, op))
            <==> SaveIsHarmless(rows, op)
  {
    if op.Save? {
      if Succeeds(rows, op) {
        SaveKeepsListIff(rows, op.id, op.folder);
      }
    } else {
      OpRefinesList(rows, op);
    }
  }

  /** Creating, moving and deleting are prepending, swapping and removing on the list. */
  lemma OpRefinesList(rows: Rows, op: Op)
    requires DistinctKeys(rows) && (op.Create? ==> op.id !in rows) && !op.Save?
    ensures DistinctKeys(Apply(rows, op))
    ensures Listing(Apply(rows, op)) == ApplyToList(Listing(rows), op, Succeeds(rows, op))
  {
    var ids := Listing(rows);
    ListingLists(rows);
    match op
    case Create(id, title, color, now) =>
      if Succeeds(rows, op) {
        CreateIsListed(rows, ids, id, Folder(TrimSpace(title), NormalColor(color), NextSortOrder(rows), now));
        OneListing(Apply(rows, op), [id] + ids);
      }
    case Move(id, direction) =>
      if Succeeds(rows, op) {
        var i := IndexOf(ids, id);
        var target := Target(i, direction);
        if 0 <= target < |ids| {
          SwapIsListed(rows, ids, i, target);
          OneListing(Apply(rows, op), Swapped(ids, i, target));
        }
      }
    case Delete(id) =>
      if id in rows {
        DeleteIsListed(rows, ids, id);
        OneListing(Apply(rows, op), Without(ids, id));
      } else {
        assert rows - {id} == rows;
      }
  }

  // ----- moves, position by position -----

  /** A folder takes the key of the one before it, and gives it its own. */
  predicate Exchanged(rows: Rows, after: Rows, a: nat, b: nat)
    requires a in rows && b in rows
  {
    && after.Keys == rows.Keys
    && after[a] == rows[a].(sortOrder := rows[b].sortOrder)
    && after[b] == rows[b].(sortOrder := rows[a].sortOrder)
    && forall id :: id in rows && id != a && id != b ==> after[id] == rows[id]
  }

  lemma PositionIs(rows: Rows, ids: seq<nat>, i: nat)
    requires Lists(rows, ids) && i < |ids|
    ensures ids[i] in rows && Listing(rows) == ids && Position(rows, ids[i]) == i
  {
    OneListing(rows, ids);
    NoRepeats(rows, ids);
    OnlyIndex(ids, i);
    assert ids[i] in ids;
  }

  lemma SwapExchanges(rows: Rows, a: nat, b: nat)
    requires a in rows && b in rows && a != b
    ensures Exchanged(rows, SwapKeys(rows, a, b), a, b) && Exchanged(rows, SwapKeys(rows, a, b), b, a)
    ensures SwapKeys(rows, a, b) == SwapKeys(rows, b, a)
  {
  }

  lemma MoveSwaps(rows: Rows, ids: seq<nat>, i: nat, direction: string)
    requires Lists(rows, ids) && i < |ids| && direction in {"DIRECTION_UP", "DIRECTION_DOWN"}
    ensures var j := Target(i, direction);
            if 0 <= j < |ids|
            then && ids[i] in rows && ids[j] in rows && ids[i] != ids[j]
                 && Apply(rows, Move(ids[i], direction)) == SwapKeys(rows, ids[i], ids[j])
            else Apply(rows, Move(ids[i], direction)) == rows
  {
    PositionIs(rows, ids, i);
    if 0 <= Target(i, direction) < |ids| {
      assert Neighbour(rows, ids[i], direction) == ids[Target(i, direction)];
    }
  }

  /** Up exchanges the keys of a folder and of the one listed just before it, and does nothing to the first. */
  lemma MoveUpIs(rows: Rows, ids: seq<nat>, i: nat)
    requires Lists(rows, ids) && i < |ids|
    ensures i > 0 ==> && ids[i] in rows && ids[i - 1] in rows
                      && Exchanged(rows, Apply(rows, Move(ids[i], "DIRECTION_UP")), ids[i - 1], ids[i])
    ensures i == 0 ==> Apply(rows, Move(ids[i], "DIRECTION_UP")) == rows
  {
    MoveSwaps(rows, ids, i, "DIRECTION_UP");
    if i > 0 {
      SwapExchanges(rows, ids[i], ids[i - 1]);
    }
  }

  /** Down exchanges the keys of a folder and of the one listed just behind it, and does nothing to the last. */
  lemma MoveDownIs(rows: Rows, ids: seq<nat>, i: nat)
    requires Lists(rows, ids) && i < |ids|
    ensures i + 1 < |ids| ==> && ids[i] in rows && ids[i + 1] in rows
                              && Exchanged(rows, Apply(rows, Move(ids[i], "DIRECTION_DOWN")), ids[i], ids[i + 1])
    ensures i + 1 == |ids| ==> Apply(rows, Move(ids[i], "DIRECTION_DOWN")) == rows
  {
    MoveSwaps(rows, ids, i, "DIRECTION_DOWN");
    if i + 1 < |ids| {
      SwapExchanges(rows, ids[i], ids[i + 1]);
    }
  }

  lemma PairInList(front: seq<nat>, a: nat, b: nat, later: seq<nat>)
    ensures var ids := front + [a, b] + later;
            && ids[|front|] == a && ids[|front| + 1] == b
            && Swapped(ids, |front|, |front| + 1) == front + [b, a] + later
  {
  }

  /** With distinct keys either move puts the two in the other order, and leaves the rest of the list where it is. */
  lemma MovesExchange(rows: Rows, front: seq<nat>, a: nat, b: nat, later: seq<nat>)
    requires DistinctKeys(rows) && Lists(rows, front + [a, b] + later)
    ensures Lists(Apply(rows, Move(b, "DIRECTION_UP")), front + [b, a] + later)
    ensures Lists(Apply(rows, Move(a, "DIRECTION_DOWN")), front + [b, a] + later)
  {
    var ids, i := front + [a, b] + later, |front|;
    PairInList(front, a, b, later);
    SwapIsListed(rows, ids, i, i + 1);
    MoveSwaps(rows, ids, i + 1, "DIRECTION_UP");
    MoveSwaps(rows, ids, i, "DIRECTION_DOWN");
    SwapExchanges(rows, a, b);
  }

  /** A deleted folder leaves a gap that closes. */
  lemma DeleteTakesOut(rows: Rows, front: seq<nat>, id: nat, later: seq<nat>)
    requires Lists(rows, front + [id] + later)
    ensures Lists(Apply(rows, Delete(id)), front + later)
  {
    var ids := front + [id] + later;
    assert ids[|front|] == id && ids[|front|] in ids;
    NoRepeats(rows, ids);
    OnlyIndex(ids, |front|);
    DeleteIsListed(rows, ids, id);
    assert Without(ids, id) == front + later;
  }

  ghost predicate DistinctTitles(rows: Rows) {
    forall a, b :: a in rows && b in rows && a != b ==> rows[a].title != rows[b].title
  }

  ghost predicate WellFormedFolder(folder: Folder) {
    && folder.title != "" && Trimmed(folder.title) && ByteLength(folder.title) <= TITLE_MAX_LENGTH
    && folder.color in COLORS
  }

  /** The schema's unique titles, and titles and colors as they are stored. */
  ghost predicate WellFormed(rows: Rows) {
    DistinctTitles(rows) && forall id :: id in rows ==> WellFormedFolder(rows[id])
  }

  lemma PutKeepsWellFormed(rows: Rows, id: nat, folder: Folder)
    requires WellFormed(rows) && WellFormedFolder(folder) && !TitleTaken(rows - {id}, folder.title)
    ensures WellFormed(rows[id := folder])
  {
    assert forall other :: other in rows && other != id ==> other in rows - {id};
  }

  lemma SwapKeepsWellFormed(rows: Rows, a: nat, b: nat)
    requires WellFormed(rows) && a in rows && b in rows && a != b
    ensures WellFormed(SwapKeys(rows, a, b))
  {
  }

  lemma NormalColorIsKnown(color: string)
    requires color == "" || color in COLORS
    ensures NormalColor(color) in COLORS
  {
    assert COLORS[0] == "blue";
  }

  lemma OpKeepsWellFormed(rows: Rows, op: Op)
    requires WellFormed(rows) && (op.Save? ==> WellFormedFolder(op.folder))
    ensures WellFormed(Apply(rows, op))
  {
    if Succeeds(rows, op) {
      match op
      case Create(id, title, color, now) =>
        NormalColorIsKnown(color);
        PutKeepsWellFormed(rows, id, Folder(TrimSpace(title), NormalColor(color), NextSortOrder(rows), now));
      case Save(id, folder) =>
        PutKeepsWellFormed(rows, id, folder);
      case Move(id, direction) =>
        if HasNeighbour(rows, id, direction) {
          SwapKeepsWellFormed(rows, id, Neighbour(rows, id, direction));
        }
      case Delete(id) =>
    }
  }

  // ----- whole histories, with updates that read and save at different times -----

  /** A copy that an update has read and edited, and not saved yet. */
  datatype Copy = Copy(id: nat, folder: Folder)

  /** The rows, and the copies in the hands of updates. */
  datatype Store = Store(rows: Rows, copies: map<nat, Copy>)

  datatype Step =
    | Direct(op: Op)
    | ReadForUpdate(call: nat, id: nat, title: string, color: string)
    | SaveUpdate(call: nat)

  /** The copy that an update goes on with after reading: none when a check fails or nothing would change. */
  function CopyRead(rows: Rows, id: nat, title: string, color: string): Option<Folder> {
    if ReadOutcome(rows, id, title, color) != Done || Edited(rows[id], title, color) == rows[id] then None
    else Some(Edited(rows[id], title, color))
  }

  /** What a step does to the rows, if anything. */
  function OpOf(store: Store, step: Step): Option<Op> {
    match step
    case Direct(op) => Some(op)
    case ReadForUpdate(_, _, _, _) => None
    case SaveUpdate(call) =>
      if call in store.copies then Some(Save(store.copies[call].id, store.copies[call].folder)) else None
  }

  function CopiesAfter(store: Store, step: Step): map<nat, Copy> {
    match step
    case Direct(_) => store.copies
    case ReadForUpdate(call, id, title, color) =>
      var copy := CopyRead(store.rows, id, title, color);
      if copy.Some? then store.copies[call := Copy(id, copy.value)] else store.copies - {call}
    case SaveUpdate(call) => store.copies - {call}
  }

  function ApplyStep(store: Store, step: Step): Store {
    var op := OpOf(store, step);
    Store(if op.Some? then Apply(store.rows, op.value) else store.rows, CopiesAfter(store, step))
  }

  function Run(steps: seq<Step>): Store {
    if steps == [] then Store(map[], map[]) else ApplyStep(Run(steps[..|steps| - 1]), steps[|steps| - 1])
  }

  /** A new folder gets an id that no folder has, and a save is always the second half of an update. */
  predicate Possible(steps: seq<Step>) {
    steps == []
    || (Possible(steps[..|steps| - 1])
        && var step := steps[|steps| - 1];
           step.Direct? ==> !step.op.Save? && (step.op.Create? ==> step.op.id !in Run(steps[..|steps| - 1]).rows))
  }

  /** The plain list after the same history. */
  function RunOnList(steps: seq<Step>): seq<nat> {
    if steps == [] then []
    else
      var before := Run(steps[..|steps| - 1]);
      var op := OpOf(before, steps[|steps| - 1]);
      var ids := RunOnList(steps[..|steps| - 1]);
      if op.Some? then ApplyToList(ids, op.value, Succeeds(before.rows, op.value)) else ids
  }

  ghost predicate IsList(steps: seq<Step>) {
    DistinctKeys(Run(steps).rows) && Listing(Run(steps).rows) == RunOnList(steps)
  }

  /** At every moment of the history the keys were distinct and the rows listed as the plain list. */
  ghost predicate IsListThroughout(steps: seq<Step>) {
    IsList(steps) && (steps != [] ==> IsListThroughout(steps[..|steps| - 1]))
  }

  ghost predicate StepIsHarmless(store: Store, step: Step) {
    var op := OpOf(store, step);
    op.Some? ==> SaveIsHarmless(store.rows, op.value)
  }

  /** Every save of the history that wrote a row wrote a harmless key to a row that still existed. */
  ghost predicate AllSavesHarmless(steps: seq<Step>) {
    steps == []
    || (AllSavesHarmless(steps[..|steps| - 1]) && StepIsHarmless(Run(steps[..|steps| - 1]), steps[|steps| - 1]))
  }

  lemma StepIsListIff(steps: seq<Step>)
    requires steps != [] && Possible(steps) && IsList(steps[..|steps| - 1])
    ensures IsList(steps) <==> StepIsHarmless(Run(steps[..|steps| - 1]), steps[|steps| - 1])
  {
    var before, step := Run(steps[..|steps| - 1]), steps[|steps| - 1];
    var op := OpOf(before, step);
    if op.Some? {
      OpRefinesListIff(before.rows, op.value);
    }
  }

  /** Over every history of an organization, in which any number of updates may be between reading and saving: the keys stay
      distinct and the rows are listed as a plain list, exactly when every save writes a harmless key. */
  lemma {:induction false} FoldersAreAListIff(steps: seq<Step>)
    requires Possible(steps)
    ensures IsListThroughout(steps) <==> AllSavesHarmless(steps)
  {
    if steps != [] {
      FoldersAreAListIff(steps[..|steps| - 1]);
      if IsListThroughout(steps[..|steps| - 1]) {
        StepIsListIff(steps);
      }
    }
  }

  /** A save that writes a row writes the key that the row has. */
  predicate StepIsUpToDate(store: Store, step: Step) {
    var op := OpOf(store, step);
    op.Some? && op.value.Save? && Succeeds(store.rows, op.value) ==>
      op.value.id in store.rows && op.value.folder.sortOrder == store.rows[op.value.id].sortOrder
  }

  predicate AllSavesUpToDate(steps: seq<Step>) {
    steps == []
    || (AllSavesUpToDate(steps[..|steps| - 1]) && StepIsUpToDate(Run(steps[..|steps| - 1]), steps[|steps| - 1]))
  }

  /** In particular when every save finds its row there, with the key that it has read. */
  lemma {:induction false} UpToDateFoldersAreAList(steps: seq<Step>)
    requires Possible(steps) && AllSavesUpToDate(steps)
    ensures IsListThroughout(steps) && AllSavesHarmless(steps)
  {
    if steps != [] {
      var front := steps[..|steps| - 1];
      UpToDateFoldersAreAList(front);
      var rows, op := Run(front).rows, OpOf(Run(front), steps[|steps| - 1]);
      if op.Some? && op.value.Save? && Succeeds(rows, op.value) {
        UpToDateKeyIsHarmless(rows, op.value.id);
      }
      assert StepIsHarmless(Run(front), steps[|steps| - 1]);
      FoldersAreAListIff(steps);
    }
  }

  ghost predicate WellFormedStore(store: Store) {
    WellFormed(store.rows) && forall call :: call in store.copies ==> WellFormedFolder(store.copies[call].folder)
  }

  lemma StepKeepsWellFormed(store: Store, step: Step)
    requires WellFormedStore(store) && (step.Direct? ==> !step.op.Save?)
    ensures WellFormedStore(ApplyStep(store, step))
  {
    var op := OpOf(store, step);
    if op.Some? {
      OpKeepsWellFormed(store.rows, op.value);
    }
    if step.ReadForUpdate? && CopyRead(store.rows, step.id, step.title, step.color).Some? {
      NormalColorIsKnown(step.color);
    }
  }

  /** Over every history titles stay distinct, trimmed, not blank and within the limit, and colors known. */
  lemma {:induction false} FoldersStayWellFormed(steps: seq<Step>)
    requires Possible(steps)
    ensures WellFormedStore(Run(steps))
  {
    if steps != [] {
      FoldersStayWellFormed(steps[..|steps| - 1]);
      StepKeepsWellFormed(Run(steps[..|steps| - 1]), steps[|steps| - 1]);
    }
  }

  /** An update whose saving comes right after its reading gives the folder the new title and color, and nothing else. */
  lemma UpdateAtOnce(steps: seq<Step>, call: nat, id: nat, title: string, color: string)
    requires Possible(steps)
    ensures var rows := Run(steps).rows;
            Run(steps + [ReadForUpdate(call, id, title, color)] + [SaveUpdate(call)]).rows
            == if UpdateOutcome(rows, id, title, color) != Done then rows
               else rows[id := Folder(TrimSpace(title), if color == "" then "blue" else color,
                                      rows[id].sortOrder, rows[id].createdAt)]
  {
    var rows, read := Run(steps).rows, ReadForUpdate(call, id, title, color);
    OneMoreStep(steps, read);
    OneMoreStep(steps + [read], SaveUpdate(call));
    if ReadOutcome(rows, id, title, color) == Done {
      FoldersStayWellFormed(steps);
      assert rows[id := rows[id]] == rows;
    }
  }

  /** A copy read before its folder is moved and saved after it gives the folder the key that its neighbour now has. */
  lemma StaleSaveRepeatsKey(rows: Rows, id: nat, direction: string, folder: Folder)
    requires DistinctKeys(rows) && MoveOutcome(rows, id, direction) == Done && HasNeighbour(rows, id, direction)
    requires folder.sortOrder == rows[id].sortOrder
    requires SaveOutcome(Apply(rows, Move(id, direction)), id, folder) == Done
    ensures !DistinctKeys(Apply(Apply(rows, Move(id, direction)), Save(id, folder)))
  {
    var other := Neighbour(rows, id, direction);
    var after := Apply(Apply(rows, Move(id, direction)), Save(id, folder));
    assert after[other].sortOrder == after[id].sortOrder;
  }

  /** A copy read before its folder is deleted and saved after it brings the folder back. */
  lemma StaleSaveRestoresFolder(rows: Rows, id: nat, folder: Folder)
    requires SaveOutcome(rows - {id}, id, folder) == Done
    ensures Apply(Apply(rows, Delete(id)), Save(id, folder)) == (rows - {id})[id := folder]
  {
  }

  lemma OneMoreStep(steps: seq<Step>, step: Step)
    ensures Run(steps + [step]) == ApplyStep(Run(steps), step)
    ensures Possible(steps + [step])
            <==> Possible(steps)
                 && (step.Direct? ==> !step.op.Save? && (step.op.Create? ==> step.op.id !in Run(steps).rows))
  {
    assert (steps + [step])[..|steps|] == steps;
  }

  /** After any history, such an update and move leave two folders with one key. */
  lemma StaleSaveAfterHistory(steps: seq<Step>, call: nat, id: nat, title: string, color: string, direction: string)
    returns (more: seq<Step>)
    requires Possible(steps) && DistinctKeys(Run(steps).rows)
    requires CopyRead(Run(steps).rows, id, title, color).Some?
    requires UpdateOutcome(Run(steps).rows, id, title, color) == Done
    requires MoveOutcome(Run(steps).rows, id, direction) == Done && HasNeighbour(Run(steps).rows, id, direction)
    ensures Possible(more) && !DistinctKeys(Run(more).rows)
  {
    var rows, read, move := Run(steps).rows, ReadForUpdate(call, id, title, color), Direct(Move(id, direction));
    var folder, other := Edited(rows[id], title, color), Neighbour(rows, id, direction);
    var moved := SwapKeys(rows, id, other);
    OneMoreStep(steps, read);
    OneMoreStep(steps + [read], move);
    OneMoreStep(steps + [read] + [move], SaveUpdate(call));
    SwapKeepsTitles(rows, id, other, folder.title);
    StaleSaveRepeatsKey(rows, id, direction, folder);
    more := steps + [read] + [move] + [SaveUpdate(call)];
  }

  lemma SwapKeepsTitles(rows: Rows, id: nat, other: nat, title: string)
    requires id in rows && other in rows && id != other
    ensures TitleTaken(SwapKeys(rows, id, other) - {id}, title) <==> TitleTaken(rows - {id}, title)
  {
    var moved := SwapKeys(rows, id, other);
    assert forall k :: k in rows ==> moved[k].title == rows[k].title;
    assert forall k :: k in rows - {id} <==> k in moved - {id};
    if TitleTaken(rows - {id}, title) {
      var k :| k in rows - {id} && (rows - {id})[k].title == title;
      assert (moved - {id})[k].title == title;
    }
  }

  function Opposite(direction: string): string {
    if direction == "DIRECTION_UP" then "DIRECTION_DOWN" else "DIRECTION_UP"
  }

  lemma OnlyIndex(ids: seq<nat>, i: nat)
    requires i < |ids| && forall k, m :: 0 <= k < m < |ids| ==> ids[k] != ids[m]
    ensures IndexOf(ids, ids[i]) == i
  {
  }

  lemma NeighbourOfNeighbour(rows: Rows, id: nat, direction: string)
    requires DistinctKeys(rows) && MoveOutcome(rows, id, direction) == Done && HasNeighbour(rows, id, direction)
    ensures var after := SwapKeys(rows, id, Neighbour(rows, id, direction));
            && HasNeighbour(after, id, Opposite(direction))
            && Neighbour(after, id, Opposite(direction)) == Neighbour(rows, id, direction)
  {
    var ids, i := Listing(rows), Position(rows, id);
    var target := Target(i, direction);
    var after, swapped := SwapKeys(rows, id, Neighbour(rows, id, direction)), Swapped(ids, i, target);
    ListingLists(rows);
    SwapIsListed(rows, ids, i, target);
    OneListing(after, swapped);
    NoRepeats(after, swapped);
    OnlyIndex(swapped, target);
  }

  /** A move that has an effect is undone by the opposite move. */
  lemma MoveIsUndone(rows: Rows, id: nat, direction: string)
    requires DistinctKeys(rows) && MoveOutcome(rows, id, direction) == Done
    requires Apply(rows, Move(id, direction)) != rows
    ensures Apply(Apply(rows, Move(id, direction)), Move(id, Opposite(direction))) == rows
  {
    NeighbourOfNeighbour(rows, id, direction);
    SwapTwice(rows, id, Neighbour(rows, id, direction));
  }

  lemma SwapTwice(rows: Rows, a: nat, b: nat)
    requires a in rows && b in rows && a != b
    ensures SwapKeys(SwapKeys(rows, a, b), a, b) == rows
    ensures SwapKeys(rows, a, b) == rows <==> rows[a].sortOrder == rows[b].sortOrder
  {
    var after := SwapKeys(rows, a, b);
    assert after[a].sortOrder == rows[b].sortOrder;
  }

  /** A move has an effect exactly when there is a neighbour with another key, which a history always gives it. */
  lemma MoveHasEffectIff(rows: Rows, id: nat, direction: string)
    requires MoveOutcome(rows, id, direction) == Done
    ensures Apply(rows, Move(id, direction)) != rows
            <==> && HasNeighbour(rows, id, direction)
                 && rows[Neighbour(rows, id, direction)].sortOrder != rows[id].sortOrder
  {
    if HasNeighbour(rows, id, direction) {
      SwapTwice(rows, id, Neighbour(rows, id, direction));
    }
  }

  function FolderA(): Folder {
    Folder("a", "blue", 0, 0)
  }

  function FolderB(): Folder {
    Folder("b", "blue", -1, 0)
  }

  function TwoFolders(): Rows {
    map[0 := FolderA(), 1 := FolderB()]
  }

  lemma ShortTitles()
    ensures TitleOutcome("a") == TitleOutcome("b") == TitleOutcome("c") == Done
    ensures TrimSpace("a") == "a" && TrimSpace("b") == "b" && TrimSpace("c") == "c"
  {
    assert ByteLength("a"[1..]) == ByteLength("b"[1..]) == ByteLength("c"[1..]) == 0;
  }

  lemma FirstFolderIsCreated()
    ensures Apply(map[], Create(0, "a", "", 0)) == map[0 := FolderA()]
  {
    ShortTitles();
  }

  lemma SecondFolderIsCreated()
    ensures Apply(map[0 := FolderA()], Create(1, "b", "", 0)) == TwoFolders()
  {
    ShortTitles();
    var rows: Rows := map[0 := FolderA()];
    assert 0 in rows;
    assert ComesFirst(rows, First(rows));
    assert !TitleTaken(rows, "b");
  }

  lemma TwoFoldersListed()
    ensures Listing(TwoFolders()) == [1, 0] && DistinctKeys(TwoFolders())
    ensures 1 in TwoFolders() && HasNeighbour(TwoFolders(), 1, "DIRECTION_DOWN")
  {
    assert forall i, j :: 0 <= i < j < 2 ==> OrderedAt(TwoFolders(), [1, 0], i, j);
    OneListing(TwoFolders(), [1, 0]);
  }

  /** And there is such a history: two folders, and an update of the first that saves after it has been moved down. */
  lemma SomeHistoryRepeatsKeys() returns (steps: seq<Step>)
    ensures Possible(steps) && !DistinctKeys(Run(steps).rows)
  {
    var first, second := Direct(Create(0, "a", "", 0)), Direct(Create(1, "b", "", 0));
    FirstFolderIsCreated();
    SecondFolderIsCreated();
    OneMoreStep([], first);
    OneMoreStep([first], second);
    assert [] + [first] == [first];
    var base := [first] + [second];
    TwoFoldersListed();
    ShortTitles();
    assert !TitleTaken(TwoFolders() - {1}, "c");
    steps := StaleSaveAfterHistory(base, 0, 1, "c", "", "DIRECTION_DOWN");
  }

  lemma PositionIsIndex(rows: Rows, id: nat, index: int)
    requires -1 <= index < |Listing(rows)|
    requires if index == -1 then id !in Listing(rows) else Listing(rows)[index] == id
    ensures id in rows <==> index != -1
    ensures index != -1 ==> Position(rows, id) == index
  {
    ListingLists(rows);
    if index != -1 {
      assert Listing(rows)[index] in Listing(rows);
      NoRepeats(rows, Listing(rows));
      OnlyIndex(Listing(rows), index);
    }
  }

  // ----- the operations as the transactions run them -----

  /** Not blank, and at most 128 bytes without the spaces around it. */
  predicate GoodTitle(title: string) {
    !AllSpaces(title) && ByteLength(TrimSpace(title)) <= 128
  }

  predicate GoodColor(color: string) {
    color in {"", "blue", "green", "purple", "slate", "orange"}
  }

  class FolderTable {
    var rows: Rows

    constructor ()
      ensures rows == map[]
    {
      rows := map[];
    }

    method ListCanvasFolders() returns (ids: seq<nat>)
      ensures Lists(rows, ids)
      ensures forall id :: id in rows <==> id in ids
      ensures forall i, j :: 0 <= i < j < |ids| ==>
        var a, b := rows[ids[i]], rows[ids[j]];
        && a.sortOrder <= b.sortOrder
        && (a.sortOrder == b.sortOrder ==> a.createdAt >= b.createdAt)
        && (a.sortOrder == b.sortOrder && a.createdAt == b.createdAt ==> ids[i] > ids[j])
    {
      ids := Listing(rows);
      ListingLists(rows);
      forall i, j | 0 <= i < j < |ids|
        ensures var a, b := rows[ids[i]], rows[ids[j]];
                && a.sortOrder <= b.sortOrder
                && (a.sortOrder == b.sortOrder ==> a.createdAt >= b.createdAt)
                && (a.sortOrder == b.sortOrder && a.createdAt == b.createdAt ==> ids[i] > ids[j])
      {
        assert OrderedAt(rows, ids, i, j);
      }
    }

    method NormalizeTitle(title: string) returns (normalized: string, outcome: Outcome)
      ensures outcome == TitleOutcome(title)
      ensures outcome == TitleRequired <==> AllSpaces(title)
      ensures outcome == TitleTooLong <==> ByteLength(TrimSpace(title)) > 128
      ensures outcome in {Done, TitleRequired, TitleTooLong}
      ensures outcome == Done ==> normalized == TrimSpace(title)
    {
      BlankIff(title);
      normalized := TrimSpace(title);
      if normalized == "" {
        return "", TitleRequired;
      }
      if ByteLength(normalized) > TITLE_MAX_LENGTH {
        return "", TitleTooLong;
      }
      return normalized, Done;
    }

    method NormalizeBackgroundColor(color: string) returns (normalized: string, outcome: Outcome)
      ensures outcome == if color == "" || color in COLORS then Done else InvalidColor
      ensures outcome == Done <==> color in {"", "blue", "green", "purple", "slate", "orange"}
      ensures outcome == Done ==> normalized == NormalColor(color) == if color == "" then "blue" else color
    {
      if color == "" {
        return "blue", Done;
      }
      if color !in COLORS {
        return "", InvalidColor;
      }
      return color, Done;
    }

    method CreateCanvasFolder(id: nat, title: string, color: string, now: int) returns (outcome: Outcome)
      modifies this
      ensures outcome == CreateOutcome(old(rows), title, color)
      ensures rows == Apply(old(rows), Create(id, title, color, now))
      ensures outcome == Done ==>
        && GoodTitle(title) && GoodColor(color)
        && (forall other :: other in old(rows) ==> old(rows)[other].title != TrimSpace(title))
        && id in rows && rows == old(rows)[id := rows[id]] && rows[id].title == TrimSpace(title)
        && rows[id].color == (if color == "" then "blue" else color) && rows[id].createdAt == now
        && (forall other :: other in old(rows) ==> rows[id].sortOrder < old(rows)[other].sortOrder)
      ensures outcome != Done ==> rows == old(rows)
      ensures outcome == TitleAlreadyExists ==>
        GoodTitle(title) && GoodColor(color) && exists other :: other in rows && rows[other].title == TrimSpace(title)
      ensures outcome == InvalidColor ==> GoodTitle(title) && !GoodColor(color)
      ensures outcome == TitleTooLong ==> !GoodTitle(title)
      ensures outcome == TitleRequired <==> AllSpaces(title)
      ensures outcome != NotFound && outcome != InvalidDirection
    {
      var normalizedTitle, normalizedColor;
      normalizedTitle, outcome := NormalizeTitle(title);
      if outcome != Done {
        return;
      }
      normalizedColor, outcome := NormalizeBackgroundColor(color);
      if outcome != Done {
        return;
      }
      var sortOrder := 0;
      if rows != map[] {
        var firstFolder := First(rows);
        sortOrder := rows[firstFolder].sortOrder - 1;
      }
      if TitleTaken(rows, normalizedTitle) {
        return TitleAlreadyExists;
      }
      rows := rows[id := Folder(normalizedTitle, normalizedColor, sortOrder, now)];
      return Done;
    }

    /** The first half of an update, which reads the row without a lock: the copy to save, if there is anything to save. */
    method ReadForUpdate(id: nat, title: string, color: string) returns (copy: Option<Folder>, outcome: Outcome)
      ensures outcome == ReadOutcome(rows, id, title, color)
      ensures copy == CopyRead(rows, id, title, color)
      ensures outcome == Done <==> GoodTitle(title) && GoodColor(color) && id in rows
      ensures outcome == NotFound <==> GoodTitle(title) && GoodColor(color) && id !in rows
      ensures outcome == InvalidColor <==> GoodTitle(title) && !GoodColor(color)
      ensures outcome == TitleRequired <==> AllSpaces(title)
      ensures outcome != TitleAlreadyExists && outcome != InvalidDirection
      ensures outcome == Done ==>
        var folder := Folder(TrimSpace(title), if color == "" then "blue" else color, rows[id].sortOrder, rows[id].createdAt);
        copy == if folder == rows[id] then None else Some(folder)
      ensures outcome != Done ==> copy == None
    {
      var normalizedTitle, normalizedColor;
      normalizedTitle, outcome := NormalizeTitle(title);
      if outcome != Done {
        return None, outcome;
      }
      normalizedColor, outcome := NormalizeBackgroundColor(color);
      if outcome != Done {
        return None, outcome;
      }
      if id !in rows {
        return None, NotFound;
      }
      var folder := rows[id];
      if folder.title == normalizedTitle && folder.color == normalizedColor {
        return None, Done;
      }
      folder := folder.(title := normalizedTitle, color := normalizedColor);
      return Some(folder), Done;
    }

    /** The second half: every column of the copy is written. */
    method SaveFolder(id: nat, folder: Folder) returns (outcome: Outcome)
      modifies this
      ensures outcome == SaveOutcome(old(rows), id, folder)
      ensures rows == Apply(old(rows), Save(id, folder))
      ensures outcome == if exists other :: other in old(rows) && other != id && old(rows)[other].title == folder.title
                         then TitleAlreadyExists else Done
      ensures rows == if outcome == Done then old(rows)[id := folder] else old(rows)
    {
      assert forall other :: other in rows - {id} <==> other in rows && other != id;
      if TitleTaken(rows - {id}, folder.title) {
        return TitleAlreadyExists;
      }
      rows := rows[id := folder];
      return Done;
    }

    /** An update during which nothing else happens. */
    method UpdateCanvasFolder(id: nat, title: string, color: string) returns (outcome: Outcome)
      requires DistinctTitles(rows)
      modifies this
      ensures outcome == UpdateOutcome(old(rows), id, title, color)
      ensures outcome == Done ==>
        && id in old(rows)
        && rows == old(rows)[id := Folder(TrimSpace(title), if color == "" then "blue" else color,
                                          old(rows)[id].sortOrder, old(rows)[id].createdAt)]
      ensures outcome != Done ==> rows == old(rows)
      ensures outcome == TitleAlreadyExists <==>
        && GoodTitle(title) && GoodColor(color) && id in old(rows)
        && exists other :: other in old(rows) && other != id && old(rows)[other].title == TrimSpace(title)
      ensures outcome == NotFound <==> GoodTitle(title) && GoodColor(color) && id !in old(rows)
      ensures outcome in {Done, TitleAlreadyExists, NotFound} <==> GoodTitle(title) && GoodColor(color)
      ensures outcome == InvalidColor <==> GoodTitle(title) && !GoodColor(color)
      ensures outcome == TitleRequired <==> AllSpaces(title)
      ensures outcome != InvalidDirection
    {
      var copy;
      copy, outcome := ReadForUpdate(id, title, color);
      if copy.Some? {
        outcome := SaveFolder(id, copy.value);
      } else if outcome == Done {
        assert rows[id := rows[id]] == rows;
      }
    }

    method DeleteCanvasFolder(id: nat) returns (outcome: Outcome)
      modifies this
      ensures outcome == if id in old(rows) then Done else NotFound
      ensures rows == Apply(old(rows), Delete(id))
    {
      if id !in rows {
        assert rows - {id} == rows;
        return NotFound;
      }
      rows := rows - {id};
      return Done;
    }

    method FindIndex(ids: seq<nat>, id: nat) returns (index: int)
      ensures -1 <= index < |ids|
      ensures if index == -1 then id !in ids else ids[index] == id
    {
      for i := 0 to |ids|
        invariant id !in ids[..i]
      {
        if ids[i] == id {
          return i;
        }
      }
      assert ids[..|ids|] == ids;
      return -1;
    }

    /** The folders after the move, or nothing when it fails. */
    method MoveCanvasFolder(id: nat, direction: string) returns (ids: seq<nat>, outcome: Outcome)
      modifies this
      ensures outcome == MoveOutcome(old(rows), id, direction)
      ensures rows == Apply(old(rows), Move(id, direction))
      ensures ids == if outcome == Done then Listing(rows) else []
      ensures outcome == NotFound <==> id !in old(rows)
      ensures outcome == InvalidDirection <==> id in old(rows) && direction !in {"DIRECTION_UP", "DIRECTION_DOWN"}
      ensures outcome in {Done, NotFound, InvalidDirection}
      ensures outcome != Done ==> rows == old(rows)
    {
      var folders := Listing(rows);
      var folderIndex := FindIndex(folders, id);
      PositionIsIndex(rows, id, folderIndex);
      if folderIndex == -1 {
        return [], NotFound;
      }
      var targetIndex := folderIndex;
      if direction == "DIRECTION_UP" {
        targetIndex := folderIndex - 1;
      } else if direction == "DIRECTION_DOWN" {
        targetIndex := folderIndex + 1;
      } else {
        return [], InvalidDirection;
      }
      if targetIndex < 0 || targetIndex >= |folders| {
        return folders, Done;
      }
      var targetId := folders[targetIndex];
      assert targetId == Neighbour(rows, id, direction);
      var currentFolder, targetFolder := rows[id], rows[targetId];
      rows := rows[id := currentFolder.(sortOrder := targetFolder.sortOrder)];
      rows := rows[targetId := targetFolder.(sortOrder := currentFolder.sortOrder)];
      return Listing(rows), Done;
    }
  }
}
