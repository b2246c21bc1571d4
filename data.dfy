/**
 * The durable store: the ShortenedUrls table of ApplicationDbContext, with the
 * unique index on Code and the column's declared maximum length.
 */
module Data {
  import opened Wrappers

  /**
   * A ShortenedUrl record. `id` stands for the Guid and `createdOnUtc` for the
   * timestamp; both come from outside the model (a Guid generator, the clock).
   */
  datatype ShortenedUrl = ShortenedUrl(id: nat, longUrl: string, code: string, shortUrl: string, createdOnUtc: int)

  /** The codes present in a table. */
  function CodesOf(rows: seq<ShortenedUrl>): set<string> {
    set i | 0 <= i < |rows| :: rows[i].code
  }

  /** The unique index: no two rows share a code. */
  ghost predicate UniqueCodes(rows: seq<ShortenedUrl>) {
    forall i, j :: 0 <= i < j < |rows| ==> rows[i].code != rows[j].code
  }

  /** Every code fits the column's declared maximum length. */
  ghost predicate CodesFit(rows: seq<ShortenedUrl>, maxCodeLength: nat) {
    forall i :: 0 <= i < |rows| ==> |rows[i].code| <= maxCodeLength
  }

  /**
   * The query `SingleOrDefault(s => s.Code == code)`: the row with that code,
   * or `None` when there is none. Under UniqueCodes there is at most one such
   * row (FindByCodeIsSingle), so the query never meets the "more than one"
   * case.
   */
  function FindByCode(rows: seq<ShortenedUrl>, code: string): (r: Option<ShortenedUrl>)
    ensures r.Some? <==> code in CodesOf(rows)
    ensures r.Some? ==> r.value in rows && r.value.code == code
  {
    if rows == [] then None
    else if rows[0].code == code then Some(rows[0])
    else
      var r := FindByCode(rows[1..], code);
      CodesOfCons(rows);
      r
  }

  /** The codes of a non-empty table: its first row's and those of the rest. */
  lemma CodesOfCons(rows: seq<ShortenedUrl>)
    requires rows != []
    ensures CodesOf(rows) == {rows[0].code} + CodesOf(rows[1..])
  {
    forall c | c in CodesOf(rows) ensures c in {rows[0].code} + CodesOf(rows[1..]) {
      var i :| 0 <= i < |rows| && rows[i].code == c;
      if i > 0 { assert rows[1..][i - 1] == rows[i]; }
    }
    forall c | c in CodesOf(rows[1..]) ensures c in CodesOf(rows) {
      var i :| 0 <= i < |rows[1..]| && rows[1..][i].code == c;
      assert rows[i + 1] == rows[1..][i];
    }
  }

  /** With unique codes, the row FindByCode returns is the only one with its code. */
  lemma {:induction false} FindByCodeIsSingle(rows: seq<ShortenedUrl>, code: string, i: nat)
    requires UniqueCodes(rows)
    requires i < |rows| && rows[i].code == code
    ensures FindByCode(rows, code) == Some(rows[i])
  {
    if i > 0 {
      assert rows[0].code != rows[i].code;
      assert rows[1..][i - 1] == rows[i];
      FindByCodeIsSingle(rows[1..], code, i - 1);
    }
  }

  /** Appending a row with a new code leaves every other lookup as it was, and finds the new row by its code. */
  lemma {:induction false} FindByCodeAppend(rows: seq<ShortenedUrl>, row: ShortenedUrl, code: string)
    requires row.code !in CodesOf(rows)
    ensures FindByCode(rows + [row], code) == if code == row.code then Some(row) else FindByCode(rows, code)
  {
    if rows == [] {
    } else {
      assert (rows + [row])[1..] == rows[1..] + [row];
      CodesOfCons(rows);
      FindByCodeAppend(rows[1..], row, code);
    }
  }

  /** Appending a row adds exactly its code to the table's codes. */
  lemma CodesOfAppend(rows: seq<ShortenedUrl>, row: ShortenedUrl)
    ensures CodesOf(rows + [row]) == CodesOf(rows) + {row.code}
  {
    var t := rows + [row];
    forall c | c in CodesOf(t) ensures c in CodesOf(rows) + {row.code} {
      var i :| 0 <= i < |t| && t[i].code == c;
      if i < |rows| { assert t[i] == rows[i]; }
    }
    forall c | c in CodesOf(rows) ensures c in CodesOf(t) {
      var i :| 0 <= i < |rows| && rows[i].code == c;
      assert t[i] == rows[i];
    }
    assert t[|rows|] == row;
  }

  /** The table behind `dbContext.ShortenedUrls`. */
  class ShortLinkDb {
    var rows: seq<ShortenedUrl>
    /** HasMaxLength(Settings.Length) on the Code column. */
    const maxCodeLength: nat

    ghost predicate Valid()
      reads this
    {
      UniqueCodes(rows) && CodesFit(rows, maxCodeLength)
    }

    /** EnsureCreated on a fresh database: an empty table. */
    constructor (maxCodeLength: nat)
      ensures this.maxCodeLength == maxCodeLength
      ensures rows == [] && Valid()
    {
      this.maxCodeLength := maxCodeLength;
      rows := [];
    }

    function Codes(): set<string>
      reads this
    {
      CodesOf(rows)
    }

    /** The query `AnyAsync(s => s.Code == code)`: true exactly when the code is among the table's codes. */
    function AnyWithCode(code: string): (b: bool)
      reads this
      ensures b <==> code in Codes()
    {
      exists i :: 0 <= i < |rows| && rows[i].code == code
    }

    /**
     * `ShortenedUrls.Add(row)` followed by `SaveChangesAsync()`: the unique
     * index rejects a row whose code is already present (the source does not
     * catch that exception), otherwise the row is appended.
     */
    method AddAndSave(row: ShortenedUrl) returns (saved: bool)
      requires Valid()
      requires |row.code| <= maxCodeLength
      modifies this
      ensures Valid()
      ensures saved <==> row.code !in old(Codes())
      ensures rows == if saved then old(rows) + [row] else old(rows)
    {
      saved := !AnyWithCode(row.code);
      if saved {
        rows := rows + [row];
      }
    }
  }
}
