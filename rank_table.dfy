/**
 * The scheduled-inquiry service (backend/app/services/scheduled_inquiries.py):
 * a table of rows, each pointing at one inquiry and carrying a rank.  Rank
 * 0 means disabled; enabled rows are ordered by rank.  The session is the
 * table itself; rows are kept in insertion order, which also settles the
 * order of rows with equal rank in the ordered read.
 */
module RankTable {
  import opened Wrappers
  import opened StableSort

  datatype ScheduledInquiry = ScheduledInquiry(id: int, inquiryId: int, rank: int)

  /** `ScheduledInquiryUpdate`: every field is sent. */
  datatype UpdateRequest = UpdateRequest(id: int, inquiryId: int, rank: int)

  /** A row of `get_scheduled_inquiries`, joined with its inquiry's text. */
  datatype WithText = WithText(id: int, rank: int, inquiryId: int, text: string)

  datatype TableError =
    | ValueError(message: string)   // raised by the service with this text
    | IntegrityError                // the `UNIQUE (inquiry_id)` constraint on insert
    | ValidationError               // `rank` below 0 (`Field(ge=0)`)

  const EnableMissing := "Invalid scheduled_inquiry_id to enable"
  const DisableMissing := "Invalid scheduled_inquiry_id to disable"
  const UpdateMissing := "Invalid inquiry.id"
  const UpdateRejected := "Invalid scheduled inquiry update request"
  const SkipNegative := "Invalid value for 'skip': it must be non-negative"
  const LimitNegative := "Invalid value for 'limit': it must be non-negative"

  predicate RanksNonNegative(rows: seq<ScheduledInquiry>)
  {
    forall k :: 0 <= k < |rows| ==> 0 <= rows[k].rank
  }

  predicate DistinctIds(rows: seq<ScheduledInquiry>)
  {
    forall i, j :: 0 <= i < j < |rows| ==> rows[i].id != rows[j].id
  }

  predicate DistinctInquiries(rows: seq<ScheduledInquiry>)
  {
    forall i, j :: 0 <= i < j < |rows| ==> rows[i].inquiryId != rows[j].inquiryId
  }

  /** The table's constraints: ranks at least 0, unique ids, unique `inquiry_id`. */
  predicate WellFormed(rows: seq<ScheduledInquiry>)
  {
    RanksNonNegative(rows) && DistinctIds(rows) && DistinctInquiries(rows)
  }

  /** `highest_rank + 1 if highest_rank else 1`, where `highest_rank` is the largest rank or `None`. */
  function NextRank(rows: seq<ScheduledInquiry>): (r: int)
    requires RanksNonNegative(rows)
    ensures 1 <= r
    ensures forall k :: 0 <= k < |rows| ==> rows[k].rank < r
    ensures r == 1 || exists k :: 0 <= k < |rows| && rows[k].rank == r - 1
    decreases |rows|
  {
    if |rows| == 0 then 1
    else
      var rest := NextRank(rows[1..]);
      if rows[0].rank + 1 > rest then rows[0].rank + 1 else rest
  }

  /** The index of the row with this id (the query `where(ScheduledInquiry.id == id).first()`). */
  function Find(rows: seq<ScheduledInquiry>, id: int): (k: Option<nat>)
    ensures k.Some? ==> k.value < |rows| && rows[k.value].id == id
    ensures k.None? <==> forall j :: 0 <= j < |rows| ==> rows[j].id != id
    decreases |rows|
  {
    if |rows| == 0 then None
    else if rows[0].id == id then Some(0)
    else
      match Find(rows[1..], id)
      case None => None
      case Some(k) => Some(k + 1)
  }

  /** `move_rank`: nonzero exactly for a step of one between two enabled ranks. */
  function MoveRank(newRank: int, oldRank: int): (m: int)
    ensures m != 0 <==> 0 < newRank && 0 < oldRank && (newRank - oldRank == 1 || oldRank - newRank == 1)
    ensures m != 0 ==> newRank - m == oldRank
  {
    if 0 < newRank && 0 < oldRank && (newRank - oldRank == 1 || oldRank - newRank == 1)
    then newRank - oldRank else 0
  }

  /** The bulk statement `update(...).where(rank == at).values(rank=rank - move)`. */
  function MoveRanks(rows: seq<ScheduledInquiry>, at: int, move: int): (r: seq<ScheduledInquiry>)
    ensures |r| == |rows|
    ensures forall k :: 0 <= k < |rows| ==>
      r[k] == if rows[k].rank == at then rows[k].(rank := rows[k].rank - move) else rows[k]
  {
    seq(|rows|, k requires 0 <= k < |rows| => if rows[k].rank == at then rows[k].(rank := rows[k].rank - move) else rows[k])
  }

  /** Some row other than the `k`th already points at `inquiryId`. */
  predicate InquiryTakenElsewhere(rows: seq<ScheduledInquiry>, k: nat, inquiryId: int)
  {
    exists j :: 0 <= j < |rows| && j != k && rows[j].inquiryId == inquiryId
  }

  /** The table after `update_scheduled_inquiry`, or the error it raises (the transaction then rolls back). */
  function Updated(rows: seq<ScheduledInquiry>, req: UpdateRequest): Result<seq<ScheduledInquiry>, TableError>
  {
    match Find(rows, req.id)
    case None => Err(ValueError(UpdateMissing))
    case Some(k) =>
      if req.rank < 0 then Err(ValidationError)
      else if InquiryTakenElsewhere(rows, k, req.inquiryId) then Err(ValueError(UpdateRejected))
      else
        var moved := MoveRanks(rows, req.rank, MoveRank(req.rank, rows[k].rank));
        Ok(moved[k := ScheduledInquiry(req.id, req.inquiryId, req.rank)])
  }

  /** Sort key of `order_by(rank.asc())`. */
  predicate RankLe(a: WithText, b: WithText)
  {
    a.rank <= b.rank
  }

  /** A row joined with its inquiry's text. */
  function JoinRow(x: ScheduledInquiry, texts: map<int, string>): WithText
    requires x.inquiryId in texts
  {
    WithText(x.id, x.rank, x.inquiryId, texts[x.inquiryId])
  }

  /** The inner join with `Inquiry`: rows whose inquiry exists, with its text. */
  function Joined(rows: seq<ScheduledInquiry>, texts: map<int, string>): (r: seq<WithText>)
    ensures |r| <= |rows|
    ensures forall i :: 0 <= i < |r| ==> r[i].inquiryId in texts && r[i].text == texts[r[i].inquiryId]
    ensures forall k :: 0 <= k < |rows| && rows[k].inquiryId in texts ==> JoinRow(rows[k], texts) in r
    decreases |rows|
  {
    if |rows| == 0 then []
    else
      var rest := Joined(rows[1..], texts);
      var x := rows[0];
      assert forall k :: 1 <= k < |rows| ==> rows[k] == rows[1..][k - 1];
      if x.inquiryId in texts then [JoinRow(x, texts)] + rest else rest
  }

  /** Entry `i` of `r` is row `idx[i]`, whose inquiry exists, with its text. */
  predicate IndexedEntries(r: seq<WithText>, rows: seq<ScheduledInquiry>, texts: map<int, string>, idx: seq<nat>)
  {
    |idx| == |r| &&
    forall i :: 0 <= i < |idx| ==>
      idx[i] < |rows| && rows[idx[i]].inquiryId in texts && r[i] == JoinRow(rows[idx[i]], texts)
  }

  predicate Increasing(idx: seq<nat>)
  {
    forall i, j :: 0 <= i < j < |idx| ==> idx[i] < idx[j]
  }

  /** Every row whose inquiry exists is listed in `idx`. */
  predicate CoversJoinable(rows: seq<ScheduledInquiry>, texts: map<int, string>, idx: seq<nat>)
  {
    forall k :: 0 <= k < |rows| && rows[k].inquiryId in texts ==> k in idx
  }

  /** `idx` lists, in increasing order, exactly the rows that `r` joins. */
  predicate JoinsRows(r: seq<WithText>, rows: seq<ScheduledInquiry>, texts: map<int, string>, idx: seq<nat>)
  {
    IndexedEntries(r, rows, texts, idx) && Increasing(idx) && CoversJoinable(rows, texts, idx)
  }

  /**
   * The join keeps one entry per row whose inquiry exists, in the rows'
   * order, and nothing else: there is an increasing list of row indices,
   * covering every such row, whose rows joined with their texts are the
   * result.
   */
  lemma {:induction false} JoinedInRowOrder(rows: seq<ScheduledInquiry>, texts: map<int, string>)
    ensures exists idx :: JoinsRows(Joined(rows, texts), rows, texts, idx)
    decreases |rows|
  {
    if |rows| == 0 {
      assert JoinsRows(Joined(rows, texts), rows, texts, []);
    } else {
      JoinedInRowOrder(rows[1..], texts);
      var rest := Joined(rows[1..], texts);
      var idx0 :| JoinsRows(rest, rows[1..], texts, idx0);
      JoinedUnfold(rows, texts);
      JoinsRowsCons(rows, texts, rest, idx0);
      var idx := if rows[0].inquiryId in texts then [0] + Shift(idx0) else Shift(idx0);
      assert JoinsRows(Joined(rows, texts), rows, texts, idx);
    }
  }

  /** Each joined entry is some row, whose inquiry exists, with its text. */
  lemma JoinedFromRows(rows: seq<ScheduledInquiry>, texts: map<int, string>, i: nat)
    requires i < |Joined(rows, texts)|
    ensures exists k :: 0 <= k < |rows| && rows[k].inquiryId in texts && Joined(rows, texts)[i] == JoinRow(rows[k], texts)
  {
    JoinedInRowOrder(rows, texts);
    var idx :| JoinsRows(Joined(rows, texts), rows, texts, idx);
    assert IndexedEntries(Joined(rows, texts), rows, texts, idx);
    var k := idx[i];
    assert 0 <= k < |rows| && rows[k].inquiryId in texts && Joined(rows, texts)[i] == JoinRow(rows[k], texts);
  }

  lemma JoinedUnfold(rows: seq<ScheduledInquiry>, texts: map<int, string>)
    requires 0 < |rows|
    ensures Joined(rows, texts) ==
      if rows[0].inquiryId in texts then [JoinRow(rows[0], texts)] + Joined(rows[1..], texts) else Joined(rows[1..], texts)
  {
  }

  /** Every index one higher. */
  function Shift(idx: seq<nat>): (r: seq<nat>)
    ensures |r| == |idx| && forall i :: 0 <= i < |idx| ==> r[i] == idx[i] + 1
  {
    seq(|idx|, i requires 0 <= i < |idx| => idx[i] + 1)
  }

  /** One more row in front: the indices move up by one, and the row joins at index 0 when its inquiry exists. */
  lemma JoinsRowsCons(rows: seq<ScheduledInquiry>, texts: map<int, string>, rest: seq<WithText>, idx0: seq<nat>)
    requires 0 < |rows| && JoinsRows(rest, rows[1..], texts, idx0)
    ensures rows[0].inquiryId in texts ==> JoinsRows([JoinRow(rows[0], texts)] + rest, rows, texts, [0] + Shift(idx0))
    ensures rows[0].inquiryId !in texts ==> JoinsRows(rest, rows, texts, Shift(idx0))
  {
    ConsEntries(rows, texts, rest, idx0);
    ConsIncreasing(idx0);
    ConsCovers(rows, texts, idx0);
  }

  lemma ConsEntries(rows: seq<ScheduledInquiry>, texts: map<int, string>, rest: seq<WithText>, idx0: seq<nat>)
    requires 0 < |rows| && IndexedEntries(rest, rows[1..], texts, idx0)
    ensures IndexedEntries(rest, rows, texts, Shift(idx0))
    ensures rows[0].inquiryId in texts ==> IndexedEntries([JoinRow(rows[0], texts)] + rest, rows, texts, [0] + Shift(idx0))
  {
    assert forall i :: 0 <= i < |idx0| ==> rows[idx0[i] + 1] == rows[1..][idx0[i]];
  }

  lemma ConsIncreasing(idx0: seq<nat>)
    requires Increasing(idx0)
    ensures Increasing(Shift(idx0)) && Increasing([0] + Shift(idx0))
  {
  }

  lemma ConsCovers(rows: seq<ScheduledInquiry>, texts: map<int, string>, idx0: seq<nat>)
    requires 0 < |rows| && CoversJoinable(rows[1..], texts, idx0)
    ensures rows[0].inquiryId !in texts ==> CoversJoinable(rows, texts, Shift(idx0))
    ensures rows[0].inquiryId in texts ==> CoversJoinable(rows, texts, [0] + Shift(idx0))
  {
    var sh := Shift(idx0);
    forall k | 1 <= k < |rows| && rows[k].inquiryId in texts
      ensures k in sh
    {
      assert rows[k] == rows[1..][k - 1];
      var i :| 0 <= i < |idx0| && idx0[i] == k - 1;
      assert sh[i] == k;
    }
    if rows[0].inquiryId in texts {
      var idx := [0] + sh;
      forall k | 0 <= k < |rows| && rows[k].inquiryId in texts
        ensures k in idx
      {
        if k > 0 {
          assert k in sh;
          var i :| 0 <= i < |sh| && sh[i] == k;
          assert idx[i + 1] == k;
        }
      }
    }
  }

  /** `s[skip:skip + limit]`: `.offset(skip).limit(limit)`. */
  function Window<T>(s: seq<T>, skip: nat, limit: nat): (r: seq<T>)
    ensures |r| <= limit && |r| <= |s|
    ensures forall i :: 0 <= i < |r| ==> skip + i < |s| && r[i] == s[skip + i]
    ensures |r| == if skip >= |s| then 0 else if skip + limit <= |s| then limit else |s| - skip
  {
    if skip >= |s| then [] else if skip + limit <= |s| then s[skip..skip + limit] else s[skip..]
  }

  /** `get_scheduled_inquiries`. */
  function ScheduledInquiriesPage(rows: seq<ScheduledInquiry>, texts: map<int, string>, skip: int, limit: int)
    : Result<seq<WithText>, TableError>
  {
    if skip < 0 then Err(ValueError(SkipNegative))
    else if limit < 0 then Err(ValueError(LimitNegative))
    else Ok(Window(Sort(Joined(rows, texts), RankLe), skip, limit))
  }

  /** The ids of the rows. */
  function Ids(rows: seq<ScheduledInquiry>): set<int>
  {
    set k | 0 <= k < |rows| :: rows[k].id
  }

  class Table {
    var rows: seq<ScheduledInquiry>
    var nextId: int

    ghost predicate Valid()
      reads this
    {
      WellFormed(rows) && forall k :: 0 <= k < |rows| ==> rows[k].id < nextId
    }

    constructor()
      ensures Valid() && rows == [] && nextId == 1
    {
      rows := [];
      nextId := 1;
    }

    /** `create`: a new row at the next rank, unless the inquiry already has a row. */
    method Create(inquiryId: int) returns (r: Result<ScheduledInquiry, TableError>)
      requires Valid()
      modifies this
      ensures Valid()
      ensures (exists k :: 0 <= k < |old(rows)| && old(rows)[k].inquiryId == inquiryId) ==>
        r == Err(IntegrityError) && rows == old(rows) && nextId == old(nextId)
      ensures (forall k :: 0 <= k < |old(rows)| ==> old(rows)[k].inquiryId != inquiryId) ==>
        && r == Ok(ScheduledInquiry(old(nextId), inquiryId, NextRank(old(rows))))
        && rows == old(rows) + [r.value] && nextId == old(nextId) + 1
    {
      var rank := NextRank(rows);
      var k := 0;
      while k < |rows|
        invariant 0 <= k <= |rows|
        invariant forall j :: 0 <= j < k ==> rows[j].inquiryId != inquiryId
      {
        if rows[k].inquiryId == inquiryId {
          return Err(IntegrityError);
        }
        k := k + 1;
      }
      var row := ScheduledInquiry(nextId, inquiryId, rank);
      rows := rows + [row];
      nextId := nextId + 1;
      r := Ok(row);
    }

    /** `enable_scheduled_inquiry`: the row's rank becomes the next rank, counting its own. */
    method Enable(id: int) returns (r: Result<ScheduledInquiry, TableError>)
      requires Valid()
      modifies this
      ensures Valid() && nextId == old(nextId)
      ensures Find(old(rows), id).None? ==> r == Err(ValueError(EnableMissing)) && rows == old(rows)
      ensures Find(old(rows), id).Some? ==>
        var k := Find(old(rows), id).value;
        && rows == old(rows)[k := old(rows)[k].(rank := NextRank(old(rows)))]
        && r == Ok(rows[k])
    {
      var found := Find(rows, id);
      if found.None? {
        return Err(ValueError(EnableMissing));
      }
      var k := found.value;
      var row := rows[k].(rank := NextRank(rows));
      rows := rows[k := row];
      r := Ok(row);
    }

    /** `disable_scheduled_inquiry`: the row's rank becomes 0. */
    method Disable(id: int) returns (r: Result<ScheduledInquiry, TableError>)
      requires Valid()
      modifies this
      ensures Valid() && nextId == old(nextId)
      ensures Find(old(rows), id).None? ==> r == Err(ValueError(DisableMissing)) && rows == old(rows)
      ensures Find(old(rows), id).Some? ==>
        var k := Find(old(rows), id).value;
        && rows == old(rows)[k := old(rows)[k].(rank := 0)]
        && r == Ok(rows[k])
    {
      var found := Find(rows, id);
      if found.None? {
        return Err(ValueError(DisableMissing));
      }
      var k := found.value;
      var row := rows[k].(rank := 0);
      rows := rows[k := row];
      r := Ok(row);
    }

    /** The bulk rank statement, row by row. */
    method MoveRanksInPlace(at: int, move: int)
      modifies this
      ensures rows == MoveRanks(old(rows), at, move) && nextId == old(nextId)
    {
      ghost var before := rows;
      var k := 0;
      while k < |rows|
        invariant |rows| == |before| && 0 <= k <= |rows| && nextId == old(nextId)
        invariant forall j :: 0 <= j < k ==> rows[j] == MoveRanks(before, at, move)[j]
        invariant forall j :: k <= j < |rows| ==> rows[j] == before[j]
      {
        if rows[k].rank == at {
          rows := rows[k := rows[k].(rank := rows[k].rank - move)];
        }
        k := k + 1;
      }
      assert rows == MoveRanks(before, at, move);
    }

    /**
     * `update_scheduled_inquiry`: a step of one between enabled ranks first
     * moves the rows at the requested rank to the target's old rank; then
     * the target takes the requested fields.  Errors leave the table as it was.
     */
    method Update(req: UpdateRequest) returns (r: Result<ScheduledInquiry, TableError>)
      requires Valid()
      modifies this
      ensures Valid() && nextId == old(nextId)
      ensures Updated(old(rows), req).Err? ==> rows == old(rows) && r == Err(Updated(old(rows), req).error)
      ensures Updated(old(rows), req).Ok? ==>
        rows == Updated(old(rows), req).value && r == Ok(ScheduledInquiry(req.id, req.inquiryId, req.rank))
    {
      var found := Find(rows, req.id);
      if found.None? {
        return Err(ValueError(UpdateMissing));
      }
      var k := found.value;
      var target := rows[k];
      var move := MoveRank(req.rank, target.rank);
      if req.rank < 0 {
        return Err(ValidationError);
      }
      var taken := TakenElsewhere(k, req.inquiryId);
      if taken {
        return Err(ValueError(UpdateRejected));
      }
      ghost var before := rows;
      ghost var expected := MoveRanks(before, req.rank, move)[k := ScheduledInquiry(req.id, req.inquiryId, req.rank)];
      assert Updated(before, req) == Ok(expected);
      if move != 0 {
        MoveRanksInPlace(req.rank, move);
      } else {
        assert MoveRanks(before, req.rank, 0) == before;
      }
      var row := ScheduledInquiry(req.id, req.inquiryId, req.rank);
      rows := rows[k := row];
      r := Ok(row);
      assert rows == expected;
      UpdatedWellFormed(before, req, k);
    }

    /** Whether a row other than the `k`th points at `inquiryId`: what the commit's unique check finds. */
    method TakenElsewhere(k: nat, inquiryId: int) returns (b: bool)
      ensures b == InquiryTakenElsewhere(rows, k, inquiryId)
    {
      var j := 0;
      while j < |rows|
        invariant 0 <= j <= |rows|
        invariant forall i :: 0 <= i < j && i != k ==> rows[i].inquiryId != inquiryId
      {
        if j != k && rows[j].inquiryId == inquiryId {
          return true;
        }
        j := j + 1;
      }
      return false;
    }

    /** `get_scheduled_inquiries` over this table and the inquiry texts. */
    function GetScheduledInquiries(texts: map<int, string>, skip: int, limit: int): (r: Result<seq<WithText>, TableError>)
      reads this
      ensures skip < 0 ==> r == Err(ValueError(SkipNegative))
      ensures 0 <= skip && limit < 0 ==> r == Err(ValueError(LimitNegative))
      ensures 0 <= skip && 0 <= limit ==> r.Ok? && |r.value| <= limit
    {
      ScheduledInquiriesPage(rows, texts, skip, limit)
    }

    /** `get_count`: the number of rows, which is the number of scheduled inquiries. */
    function GetCount(): (n: nat)
      reads this
      ensures n == |rows|
      ensures Valid() ==> n == |Ids(rows)|
    {
      DistinctIdsCount(rows);
      |rows|
    }
  }

  /** An accepted update keeps the table's constraints. */
  lemma UpdatedWellFormed(rows: seq<ScheduledInquiry>, req: UpdateRequest, k: nat)
    requires WellFormed(rows) && Find(rows, req.id) == Some(k) && Updated(rows, req).Ok?
    ensures WellFormed(Updated(rows, req).value)
    ensures forall j :: 0 <= j < |rows| ==> Updated(rows, req).value[j].id == rows[j].id
  {
    var move := MoveRank(req.rank, rows[k].rank);
    var moved := MoveRanks(rows, req.rank, move);
    var u := Updated(rows, req).value;
    assert u == moved[k := ScheduledInquiry(req.id, req.inquiryId, req.rank)];
    forall j | 0 <= j < |rows|
      ensures 0 <= u[j].rank && u[j].id == rows[j].id
      ensures j != k ==> u[j].inquiryId == rows[j].inquiryId
    {
    }
    assert !InquiryTakenElsewhere(rows, k, req.inquiryId);
  }

  /** Distinct ids: as many ids as rows. */
  lemma {:induction false} DistinctIdsCount(rows: seq<ScheduledInquiry>)
    ensures DistinctIds(rows) ==> |Ids(rows)| == |rows|
    decreases |rows|
  {
    if |rows| > 0 && DistinctIds(rows) {
      var rest := rows[1..];
      DistinctIdsCount(rest);
      assert Ids(rows) == {rows[0].id} + Ids(rest) by {
        forall x | x in Ids(rows) ensures x in {rows[0].id} + Ids(rest) {
          var k :| 0 <= k < |rows| && rows[k].id == x;
          if k > 0 { assert rest[k - 1].id == x; }
        }
      }
      assert rows[0].id !in Ids(rest);
    }
  }

  /** The ranks of the rows, in row order. */
  function Ranks(rows: seq<ScheduledInquiry>): (r: seq<int>)
    ensures |r| == |rows| && forall k :: 0 <= k < |rows| ==> r[k] == rows[k].rank
  {
    seq(|rows|, k requires 0 <= k < |rows| => rows[k].rank)
  }

  /**
   * A step of one between two enabled ranks, with exactly one row `j` at the
   * requested rank, swaps the ranks of the target and that row: nothing
   * else changes and the ranks in the table are the same multiset.
   */
  lemma UpdateSwapsRanks(rows: seq<ScheduledInquiry>, req: UpdateRequest, k: nat, j: nat)
    requires Find(rows, req.id) == Some(k) && Updated(rows, req).Ok?
    requires MoveRank(req.rank, rows[k].rank) != 0
    requires j < |rows| && rows[j].rank == req.rank
    requires forall i :: 0 <= i < |rows| && i != j ==> rows[i].rank != req.rank
    ensures var u := Updated(rows, req).value;
      && |u| == |rows| && j != k
      && u[j] == rows[j].(rank := rows[k].rank)
      && u[k] == ScheduledInquiry(req.id, req.inquiryId, req.rank)
      && (forall i :: 0 <= i < |rows| && i != j && i != k ==> u[i] == rows[i])
      && multiset(Ranks(u)) == multiset(Ranks(rows))
  {
    var moved := MoveRanks(rows, req.rank, MoveRank(req.rank, rows[k].rank));
    var u := Updated(rows, req).value;
    assert u == moved[k := ScheduledInquiry(req.id, req.inquiryId, req.rank)];
    assert j != k;
    var a := Ranks(rows);
    assert Ranks(u) == a[j := a[k]][k := a[j]];
    SwapPermutes(a, j, k);
  }

  lemma SwapPermutes(a: seq<int>, j: nat, k: nat)
    requires j < |a| && k < |a|
    ensures multiset(a[j := a[k]][k := a[j]]) == multiset(a)
  {
    if j != k {
      var b := a[j := a[k]];
      assert multiset(b) == multiset(a) - multiset{a[j]} + multiset{a[k]};
      assert multiset(b[k := a[j]]) == multiset(b) - multiset{b[k]} + multiset{a[j]};
    }
  }

  /** Any other accepted update changes only the target row. */
  lemma UpdateOnlyTarget(rows: seq<ScheduledInquiry>, req: UpdateRequest, k: nat)
    requires Find(rows, req.id) == Some(k) && Updated(rows, req).Ok?
    requires MoveRank(req.rank, rows[k].rank) == 0
    ensures var u := Updated(rows, req).value;
      && |u| == |rows|
      && u[k] == ScheduledInquiry(req.id, req.inquiryId, req.rank)
      && forall i :: 0 <= i < |rows| && i != k ==> u[i] == rows[i]
  {
  }

  lemma RankLeTotal()
    ensures TotalPreorder(RankLe)
  {
  }

  /**
   * A page of `get_scheduled_inquiries` holds at most `limit` rows, the ones
   * after the first `skip` of the joined rows in ascending rank, in that order.
   */
  lemma PageOrdered(rows: seq<ScheduledInquiry>, texts: map<int, string>, skip: int, limit: int)
    requires 0 <= skip && 0 <= limit
    ensures var r := ScheduledInquiriesPage(rows, texts, skip, limit);
      var all := Sort(Joined(rows, texts), RankLe);
      && r.Ok? && |r.value| <= limit
      && Sorted(all, RankLe) && multiset(all) == multiset(Joined(rows, texts))
      && (forall i :: 0 <= i < |r.value| ==> skip + i < |all| && r.value[i] == all[skip + i])
      && Sorted(r.value, RankLe)
  {
    var all := Sort(Joined(rows, texts), RankLe);
    RankLeTotal();
    SortIsSorted(Joined(rows, texts), RankLe);
    SortPermutes(Joined(rows, texts), RankLe);
    var w := Window(all, skip, limit);
    assert forall a, b :: 0 <= a < b < |w| ==> w[a] == all[skip + a] && w[b] == all[skip + b];
  }
}
