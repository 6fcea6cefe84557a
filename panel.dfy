/**
 * The data generator's configuration panel: the PIN-code registry and the holiday list it edits
 * in place. The answers a user types at each prompt are parameters; the CSV files of the two
 * imports are given as their rows.
 */
module Panel {
  import opened Wrappers
  import opened Seqs
  import opened Text
  import opened Tables
  import opened IsoDate

  /** A registry entry: `{'district', 'state', 'type', 'base_footfall'}`. */
  datatype PinEntry = PinEntry(district: string, state: string, centerType: string, baseFootfall: int)

  predicate IsCenterType(t: string) {
    t == "Urban" || t == "Rural" || t == "Semi-Urban"
  }

  /** `center_types.get(choice, 'Urban')`. */
  function TypeOfChoice(choice: string): (r: string)
    ensures IsCenterType(r)
    ensures r == "Rural" <==> choice == "2"
    ensures r == "Semi-Urban" <==> choice == "3"
  {
    if choice == "1" then "Urban" else if choice == "2" then "Rural" else if choice == "3" then "Semi-Urban" else "Urban"
  }

  /** A PIN code `add_pincode` accepts: six characters, all digits. */
  predicate ValidPin(pin: string) {
    |pin| == 6 && AllDigits(pin)
  }

  /** `int(text)`, or `fallback` where `int` raises ValueError. */
  function IntOr(text: string, fallback: int): int {
    match ParseInt(text)
    case Some(n) => n
    case None => fallback
  }

  /** The entry `add_pincode` stores for its answers (base footfall 100 when not an integer). */
  function NewEntry(district: string, state: string, choice: string, footfall: string): (r: PinEntry)
    ensures IsCenterType(r.centerType)
  {
    PinEntry(Strip(district), Strip(state), TypeOfChoice(Strip(choice)), IntOr(Strip(footfall), 100))
  }

  /** A type choice `edit_pincode` acts on. */
  predicate IsChoice(c: string) {
    c == "1" || c == "2" || c == "3"
  }

  /** The entry after `edit_pincode`: a blank answer, a choice outside 1-3 or a non-integer footfall keeps the current value. */
  function Edited(e: PinEntry, district: string, state: string, choice: string, footfall: string): PinEntry {
    var d, s, c, f := Strip(district), Strip(state), Strip(choice), Strip(footfall);
    PinEntry(
      if d != "" then d else e.district,
      if s != "" then s else e.state,
      if IsChoice(c) then TypeOfChoice(c) else e.centerType,
      if f != "" then IntOr(f, e.baseFootfall) else e.baseFootfall)
  }

  /**
   * Blank answers leave an entry as it is, answering the same twice is answering once, and a
   * canonical centre type stays canonical.
   */
  lemma EditedSpec(e: PinEntry, district: string, state: string, choice: string, footfall: string)
    ensures Edited(e, "", "", "", "") == e
    ensures Edited(Edited(e, district, state, choice, footfall), district, state, choice, footfall)
      == Edited(e, district, state, choice, footfall)
    ensures IsCenterType(e.centerType) ==> IsCenterType(Edited(e, district, state, choice, footfall).centerType)
  {
    assert Strip("") == "";
  }

  /**
   * Each answer acts on its own field only: a non-blank district or state replaces that field,
   * a choice of 1, 2 or 3 sets Urban, Rural or Semi-Urban and any other choice keeps the type, and
   * an integer footfall replaces the base footfall while anything else keeps it.
   */
  lemma EditedFields(e: PinEntry, district: string, state: string, choice: string, footfall: string)
    ensures var r := Edited(e, district, state, choice, footfall);
      && r.district == (if Strip(district) == "" then e.district else Strip(district))
      && r.state == (if Strip(state) == "" then e.state else Strip(state))
      && (Strip(choice) == "1" ==> r.centerType == "Urban")
      && (Strip(choice) == "2" ==> r.centerType == "Rural")
      && (Strip(choice) == "3" ==> r.centerType == "Semi-Urban")
      && (!IsChoice(Strip(choice)) ==> r.centerType == e.centerType)
      && (ParseInt(Strip(footfall)).Some? ==> r.baseFootfall == ParseInt(Strip(footfall)).value)
      && (ParseInt(Strip(footfall)).None? ==> r.baseFootfall == e.baseFootfall)
  {
    if Strip(footfall) == "" {
      assert ParseInt("").None? by { assert Strip("") == ""; }
    }
  }

  /** `list.remove(d)`: drop the first occurrence. */
  function RemoveFirst(hs: seq<string>, d: string): (r: seq<string>)
    ensures |r| == if d in hs then |hs| - 1 else |hs|
  {
    if |hs| == 0 then []
    else if hs[0] == d then hs[1..]
    else [hs[0]] + RemoveFirst(hs[1..], d)
  }

  /** Removing takes away one copy of the date, if it is listed, and keeps everything else. */
  lemma {:induction false} RemoveFirstCount(hs: seq<string>, d: string)
    ensures multiset(RemoveFirst(hs, d)) == multiset(hs) - multiset{d}
  {
    if |hs| > 0 {
      var rest := hs[1..];
      assert hs == [hs[0]] + rest;
      assert multiset(hs) == multiset{hs[0]} + multiset(rest);
      if hs[0] != d {
        RemoveFirstCount(rest, d);
        assert RemoveFirst(hs, d) == [hs[0]] + RemoveFirst(rest, d);
      }
    }
  }

  /** An unlisted date changes nothing. */
  lemma {:induction false} RemoveFirstAbsent(hs: seq<string>, d: string)
    requires d !in hs
    ensures RemoveFirst(hs, d) == hs
  {
    if |hs| > 0 {
      RemoveFirstAbsent(hs[1..], d);
    }
  }

  /** A duplicate-free list stays duplicate-free and no longer holds the date. */
  lemma {:induction false} RemoveFirstNoDuplicates(hs: seq<string>, d: string)
    requires NoDuplicates(hs)
    ensures NoDuplicates(RemoveFirst(hs, d)) && d !in RemoveFirst(hs, d)
  {
    if |hs| > 0 {
      var rest := hs[1..];
      RemoveFirstNoDuplicates(rest, d);
      if hs[0] == d {
        assert d !in rest;
      } else {
        RemoveFirstCount(rest, d);
        var r := RemoveFirst(rest, d);
        assert hs[0] !in rest;
        assert multiset(rest)[hs[0]] == 0;
        assert multiset(r)[hs[0]] == 0;
      }
    }
  }

  /** The holiday list after `import_holidays` reads `dates`: each stripped date not yet listed is appended, in file order. */
  function Merged(hs: seq<string>, dates: seq<string>): seq<string> {
    if |dates| == 0 then hs
    else
      var prev := Merged(hs, dates[..|dates| - 1]);
      var d := Strip(dates[|dates| - 1]);
      if d in prev then prev else prev + [d]
  }

  /**
   * Importing only appends: the old list is a prefix, every imported date is then listed, every
   * listed date was already there or imported, and a duplicate-free list stays duplicate-free.
   */
  lemma {:induction false} MergedSpec(hs: seq<string>, dates: seq<string>)
    ensures hs <= Merged(hs, dates)
    ensures forall i :: 0 <= i < |dates| ==> Strip(dates[i]) in Merged(hs, dates)
    ensures forall x :: x in Merged(hs, dates) ==> x in hs || exists i :: 0 <= i < |dates| && Strip(dates[i]) == x
    ensures NoDuplicates(hs) ==> NoDuplicates(Merged(hs, dates))
  {
    if |dates| > 0 {
      var init := dates[..|dates| - 1];
      MergedSpec(hs, init);
      var prev := Merged(hs, init);
      forall x | x in Merged(hs, dates) ensures x in hs || exists i :: 0 <= i < |dates| && Strip(dates[i]) == x {
        if x in prev && x !in hs {
          var i :| 0 <= i < |init| && Strip(init[i]) == x;
          assert Strip(dates[i]) == x;
        }
      }
    }
  }

  /** A row of the bulk-import CSV; `baseFootfall` is `int()` of its cell, None where that raises. */
  datatype BulkRow = BulkRow(pincode: string, district: string, state: string, centerType: string, baseFootfall: Option<int>)

  /** Every row before this one has a base footfall `int()` accepts; this one (if any) has not. */
  function FirstInvalid(rows: seq<BulkRow>): (r: nat)
    ensures r <= |rows|
    ensures forall k :: 0 <= k < r ==> rows[k].baseFootfall.Some?
    ensures r < |rows| ==> rows[r].baseFootfall.None?
  {
    if |rows| == 0 || rows[0].baseFootfall.None? then 0 else 1 + FirstInvalid(rows[1..])
  }

  function EntryOf(row: BulkRow): PinEntry
    requires row.baseFootfall.Some?
  {
    PinEntry(row.district, row.state, row.centerType, row.baseFootfall.value)
  }

  /** The registry after `bulk_import_pincodes` stored `rows`: each row overwrites the entry of its stripped PIN code. */
  function Upserted(m: map<string, PinEntry>, rows: seq<BulkRow>): map<string, PinEntry>
    requires forall k :: 0 <= k < |rows| ==> rows[k].baseFootfall.Some?
  {
    if |rows| == 0 then m
    else Upserted(m, rows[..|rows| - 1])[Strip(rows[|rows| - 1].pincode) := EntryOf(rows[|rows| - 1])]
  }

  /** A PIN code no row names keeps its entry, and is not added. */
  lemma {:induction false} UpsertedOther(m: map<string, PinEntry>, rows: seq<BulkRow>, pin: string)
    requires forall k :: 0 <= k < |rows| ==> rows[k].baseFootfall.Some?
    requires forall k :: 0 <= k < |rows| ==> Strip(rows[k].pincode) != pin
    ensures pin in Upserted(m, rows) <==> pin in m
    ensures pin in m ==> Upserted(m, rows)[pin] == m[pin]
  {
    if |rows| > 0 {
      UpsertedOther(m, rows[..|rows| - 1], pin);
    }
  }

  /** A PIN code the rows name ends with the values of the last row naming it. */
  lemma {:induction false} UpsertedLast(m: map<string, PinEntry>, rows: seq<BulkRow>, i: nat)
    requires forall k :: 0 <= k < |rows| ==> rows[k].baseFootfall.Some?
    requires i < |rows| && forall k :: i < k < |rows| ==> Strip(rows[k].pincode) != Strip(rows[i].pincode)
    ensures Strip(rows[i].pincode) in Upserted(m, rows)
    ensures Upserted(m, rows)[Strip(rows[i].pincode)] == EntryOf(rows[i])
  {
    if i < |rows| - 1 {
      UpsertedLast(m, rows[..|rows| - 1], i);
    }
  }

  /** The column the bulk import reads first and does not find, in the order it reads them. */
  function MissingBulkColumn(columns: seq<string>): Option<string> {
    if "pincode" !in columns then Some("pincode")
    else if "district" !in columns then Some("district")
    else if "state" !in columns then Some("state")
    else if "center_type" !in columns then Some("center_type")
    else if "base_footfall" !in columns then Some("base_footfall")
    else None
  }

  /** `DataGeneratorPanel` over its generator's `pincodes` dictionary and `holidays` list. */
  class Registry {
    var pincodes: map<string, PinEntry>
    var holidays: seq<string>

    constructor(pincodes: map<string, PinEntry>, holidays: seq<string>)
      ensures this.pincodes == pincodes && this.holidays == holidays
    {
      this.pincodes := pincodes;
      this.holidays := holidays;
    }

    /**
     * `add_pincode`: a listed PIN code or one that is not six digits changes nothing; otherwise
     * exactly that key is added.
     */
    method AddPincode(answer: string, district: string, state: string, choice: string, footfall: string)
      returns (added: bool)
      modifies this
      ensures var pin := Strip(answer);
        added <==> pin !in old(pincodes) && ValidPin(pin)
      ensures added ==> pincodes == old(pincodes)[Strip(answer) := NewEntry(district, state, choice, footfall)]
      ensures !added ==> pincodes == old(pincodes)
      ensures holidays == old(holidays)
    {
      var pin := Strip(answer);
      if pin in pincodes {
        return false;
      }
      if |pin| != 6 || !AllDigits(pin) {
        return false;
      }
      pincodes := pincodes[pin := NewEntry(district, state, choice, footfall)];
      added := true;
    }

    /** `edit_pincode`: an unknown PIN code changes nothing; a known one gets its edited entry. */
    method EditPincode(answer: string, district: string, state: string, choice: string, footfall: string)
      returns (found: bool)
      modifies this
      ensures found <==> Strip(answer) in old(pincodes)
      ensures found ==> pincodes == old(pincodes)[Strip(answer) := Edited(old(pincodes)[Strip(answer)], district, state, choice, footfall)]
      ensures !found ==> pincodes == old(pincodes)
      ensures holidays == old(holidays)
    {
      var pin := Strip(answer);
      if pin !in pincodes {
        return false;
      }
      var info := pincodes[pin];
      pincodes := pincodes[pin := Edited(info, district, state, choice, footfall)];
      found := true;
    }

    /** `delete_pincode`: the key goes only when it is listed and the stripped, lower-cased confirmation is "yes". */
    method DeletePincode(answer: string, confirm: string) returns (deleted: bool)
      modifies this
      ensures deleted <==> Strip(answer) in old(pincodes) && Lower(Strip(confirm)) == "yes"
      ensures pincodes == if deleted then old(pincodes) - {Strip(answer)} else old(pincodes)
      ensures holidays == old(holidays)
    {
      var pin := Strip(answer);
      if pin !in pincodes {
        return false;
      }
      if Lower(Strip(confirm)) == "yes" {
        pincodes := pincodes - {pin};
        deleted := true;
      } else {
        deleted := false;
      }
    }

    /**
     * `bulk_import_pincodes` on the rows of the CSV: a missing column stops it at the first row,
     * and a base footfall `int()` rejects stops it at that row, keeping what was stored before.
     */
    method BulkImportPincodes(columns: seq<string>, rows: seq<BulkRow>) returns (r: Result<nat, Error>)
      modifies this
      ensures |rows| > 0 && MissingBulkColumn(columns).Some? ==>
        r == Err(KeyError(MissingBulkColumn(columns).value)) && pincodes == old(pincodes)
      ensures |rows| == 0 || MissingBulkColumn(columns).None? ==>
        && pincodes == Upserted(old(pincodes), rows[..FirstInvalid(rows)])
        && (r.Ok? <==> FirstInvalid(rows) == |rows|)
        && (r.Ok? ==> r.value == |rows|)
      ensures holidays == old(holidays)
    {
      if |rows| > 0 && MissingBulkColumn(columns).Some? {
        return Err(KeyError(MissingBulkColumn(columns).value));
      }
      var count := 0;
      while count < |rows|
        invariant count <= FirstInvalid(rows)
        invariant pincodes == Upserted(old(pincodes), rows[..count])
        invariant holidays == old(holidays)
      {
        var row := rows[count];
        if row.baseFootfall.None? {
          return Err(ValueError("base_footfall"));
        }
        assert rows[..count + 1][..count] == rows[..count];
        pincodes := pincodes[Strip(row.pincode) := EntryOf(row)];
        count := count + 1;
      }
      assert rows[..count] == rows;
      r := Ok(count);
    }

    /** `add_holiday`: a date `strptime` rejects is an error; a listed one is not added again. */
    method AddHoliday(answer: string) returns (r: Result<bool, Error>)
      modifies this
      ensures var d := Strip(answer);
        && (ParseIso(d).None? ==> r == Err(ValueError("date")) && holidays == old(holidays))
        && (ParseIso(d).Some? ==> r == Ok(d !in old(holidays)))
        && (ParseIso(d).Some? && d !in old(holidays) ==> holidays == old(holidays) + [d])
        && (d in old(holidays) ==> holidays == old(holidays))
      ensures NoDuplicates(old(holidays)) ==> NoDuplicates(holidays)
      ensures pincodes == old(pincodes)
    {
      var d := Strip(answer);
      if ParseIso(d).None? {
        return Err(ValueError("date"));
      }
      if d in holidays {
        return Ok(false);
      }
      holidays := holidays + [d];
      r := Ok(true);
    }

    /** `delete_holiday`: removes the first copy of a listed date; an unlisted one changes nothing. */
    method DeleteHoliday(answer: string) returns (deleted: bool)
      modifies this
      ensures deleted <==> Strip(answer) in old(holidays)
      ensures holidays == RemoveFirst(old(holidays), Strip(answer))
      ensures pincodes == old(pincodes)
    {
      var d := Strip(answer);
      deleted := d in holidays;
      if deleted {
        holidays := RemoveFirst(holidays, d);
      } else {
        RemoveFirstAbsent(holidays, d);
      }
    }

    /**
     * `import_holidays` on the `date` cells of the CSV: appends each stripped date not yet listed
     * and counts what it appended; without a `date` column the first row stops it.
     */
    method ImportHolidays(columns: seq<string>, dates: seq<string>) returns (r: Result<nat, Error>)
      modifies this
      ensures |dates| > 0 && "date" !in columns ==> r == Err(KeyError("date")) && holidays == old(holidays)
      ensures |dates| == 0 || "date" in columns ==>
        && holidays == Merged(old(holidays), dates)
        && r == Ok(|holidays| - |old(holidays)|)
      ensures pincodes == old(pincodes)
    {
      if |dates| > 0 && "date" !in columns {
        return Err(KeyError("date"));
      }
      var count := 0;
      for i := 0 to |dates|
        invariant holidays == Merged(old(holidays), dates[..i])
        invariant count == |holidays| - |old(holidays)|
        invariant pincodes == old(pincodes)
      {
        var d := Strip(dates[i]);
        assert dates[..i + 1][..i] == dates[..i];
        if d !in holidays {
          holidays := holidays + [d];
          count := count + 1;
        }
      }
      assert dates[..|dates|] == dates;
      r := Ok(count);
    }
  }
}
