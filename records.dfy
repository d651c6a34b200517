/** The Treasure record of treasure.h and the record file hunts/<hunt>/treasures.dat that
    holds a hunt's records back to back, with neither header nor footer. */
module Records {
  import opened Base
  import opened CText

  /** sizeof(Treasure) with 4-byte alignment: id[20], user[50], 2 padding bytes,
      two 4-byte floats, clue[200] and a 4-byte int. */
  const RecordSize: nat := 284

  /** A float field, represented by the text that %.6f prints for it: the programs copy
      coordinates verbatim and never compute with them. */
  datatype Float = Float(fixed6: string)

  datatype Treasure = Treasure(
    id: string,
    user: string,
    latitude: Float,
    longitude: Float,
    clue: string,
    value: int)

  /** The trailing bytes of a record file that do not make up a whole record. */
  type Stray = n: nat | n < RecordSize

  /** A record file: its whole records in file order, then 0 to 283 stray bytes (left by a
      torn write or put there from outside). */
  datatype RecordFile = RecordFile(records: seq<Treasure>, stray: Stray) {

    /** st_size of the file. */
    function Size(): nat {
      |records| * RecordSize + stray
    }
  }

  const EmptyFile := RecordFile([], 0)

  /** The file after an O_APPEND write of `written` bytes of a record: the bytes go after
      the stray ones, and when both together reach the record size they close one more
      record, which a scan then reads back as `chunk`. */
  function Append(f: RecordFile, written: nat, chunk: Treasure): (g: RecordFile)
    requires written <= RecordSize
    ensures g.Size() == f.Size() + written
    ensures |g.records| == |f.records| + (if f.stray + written >= RecordSize then 1 else 0)
    ensures g.records == f.records || g.records == f.records + [chunk]
    ensures f.stray == 0 && written == RecordSize ==> g == RecordFile(f.records + [chunk], 0)
  {
    if f.stray + written >= RecordSize then RecordFile(f.records + [chunk], f.stray + written - RecordSize)
    else RecordFile(f.records, f.stray + written)
  }

  /** The k-th read(fd, &t, sizeof(Treasure)) of a scan from the start of the file:
      a whole record, or None when the read comes back short (end of file or stray bytes). */
  function ReadAt(f: RecordFile, k: nat): (r: Option<Treasure>)
    ensures r.Some? <==> k < |f.records|
    ensures r.Some? ==> r.value == f.records[k]
  {
    if (k + 1) * RecordSize <= f.Size() then Some(f.records[k]) else None
  }

  /** The record count list_hunts prints: the file size divided by the record size. */
  function Count(f: RecordFile): (n: nat)
    ensures n == |f.records|
  {
    CountOfSize(|f.records|, f.stray);
    f.Size() / RecordSize
  }

  lemma {:induction false} CountOfSize(n: nat, s: Stray)
    ensures (n * RecordSize + s) / RecordSize == n
  {
    if n > 0 {
      CountOfSize(n - 1, s);
      assert n * RecordSize + s == (n - 1) * RecordSize + s + RecordSize;
    }
  }

  /** The index of the first record whose id equals `id` (strcmp(...) == 0). */
  function FirstMatch(rs: seq<Treasure>, id: string): (r: Option<nat>)
    ensures r.Some? ==> r.value < |rs| && rs[r.value].id == id
    ensures r.Some? ==> forall j :: 0 <= j < r.value ==> rs[j].id != id
    ensures r.None? <==> forall j :: 0 <= j < |rs| ==> rs[j].id != id
  {
    if rs == [] then None
    else if rs[0].id == id then Some(0)
    else match FirstMatch(rs[1..], id)
      case None => None
      case Some(k) => Some(k + 1)
  }

  /** The records whose id differs from `id`, in file order. */
  function Survivors(rs: seq<Treasure>, id: string): (r: seq<Treasure>)
    ensures |r| <= |rs|
  {
    if rs == [] then []
    else Survivors(rs[..|rs| - 1], id) + (if rs[|rs| - 1].id != id then [rs[|rs| - 1]] else [])
  }

  /** The number of records whose id equals `id`. */
  function Matches(rs: seq<Treasure>, id: string): nat
  {
    if rs == [] then 0
    else Matches(rs[..|rs| - 1], id) + (if rs[|rs| - 1].id == id then 1 else 0)
  }

  lemma {:induction false} SurvivorsAppend(a: seq<Treasure>, b: seq<Treasure>, id: string)
    ensures Survivors(a + b, id) == Survivors(a, id) + Survivors(b, id)
  {
    if b != [] {
      assert (a + b)[..|a + b| - 1] == a + b[..|b| - 1];
      SurvivorsAppend(a, b[..|b| - 1], id);
    } else {
      assert a + b == a;
    }
  }

  /** Deletion keeps exactly the records with a different id: no match survives, and every
      record with another id does. */
  lemma {:induction false} SurvivorsMembers(rs: seq<Treasure>, id: string)
    ensures forall t :: t in Survivors(rs, id) <==> t in rs && t.id != id
  {
    if rs != [] {
      var p := rs[..|rs| - 1];
      SurvivorsMembers(p, id);
      assert rs == p + [rs[|rs| - 1]];
    }
  }

  /** The matching records are all dropped: the survivors are exactly |rs| - Matches long. */
  lemma {:induction false} SurvivorsCount(rs: seq<Treasure>, id: string)
    ensures |Survivors(rs, id)| + Matches(rs, id) == |rs|
  {
    if rs != [] {
      SurvivorsCount(rs[..|rs| - 1], id);
    }
  }

  /** The survivors are taken from the file: each record survives at most as often as it
      occurs. */
  lemma {:induction false} SurvivorsSubMultiset(rs: seq<Treasure>, id: string)
    ensures multiset(Survivors(rs, id)) <= multiset(rs)
  {
    if rs != [] {
      var p := rs[..|rs| - 1];
      var last := rs[|rs| - 1];
      SurvivorsSubMultiset(p, id);
      assert rs == p + [last];
      assert multiset(rs) == multiset(p) + multiset([last]);
      var kept := if last.id != id then [last] else [];
      assert multiset(Survivors(rs, id)) == multiset(Survivors(p, id)) + multiset(kept);
    }
  }

  /** Without a match the rewrite is the identity. */
  lemma {:induction false} SurvivorsNoMatch(rs: seq<Treasure>, id: string)
    requires FirstMatch(rs, id).None?
    ensures Survivors(rs, id) == rs && Matches(rs, id) == 0
  {
    if rs != [] {
      var p := rs[..|rs| - 1];
      assert FirstMatch(p, id).None?;
      SurvivorsNoMatch(p, id);
      assert rs == p + [rs[|rs| - 1]];
    }
  }

  /** Deleting twice deletes nothing more. */
  lemma {:induction false} SurvivorsIdempotent(rs: seq<Treasure>, id: string)
    ensures Survivors(Survivors(rs, id), id) == Survivors(rs, id)
  {
    if rs != [] {
      var p := rs[..|rs| - 1];
      SurvivorsIdempotent(p, id);
      var last := if rs[|rs| - 1].id != id then [rs[|rs| - 1]] else [];
      SurvivorsAppend(Survivors(p, id), last, id);
      if last != [] {
        assert Survivors(last, id) == Survivors([], id) + last;
      }
    }
  }

  /** A record appended by an add is found by its id: at the end when the id was new,
      otherwise the earlier record with that id keeps shadowing it. */
  lemma {:induction false} FirstMatchAppended(rs: seq<Treasure>, t: Treasure)
    ensures FirstMatch(rs + [t], t.id).Some?
    ensures FirstMatch(rs, t.id).None? ==> FirstMatch(rs + [t], t.id) == Some(|rs|)
    ensures FirstMatch(rs, t.id).Some? ==> FirstMatch(rs + [t], t.id) == FirstMatch(rs, t.id)
  {
    if rs != [] && rs[0].id != t.id {
      assert (rs + [t])[1..] == rs[1..] + [t];
      FirstMatchAppended(rs[1..], t);
    }
  }

  /** Removing an id right after adding a record with it removes the addition too. */
  lemma SurvivorsOfAppended(rs: seq<Treasure>, t: Treasure)
    ensures Survivors(rs + [t], t.id) == Survivors(rs, t.id)
  {
    assert (rs + [t])[..|rs|] == rs;
  }

  /** The column header and the rule that precede the rows of a listing. */
  const ColumnHeader := "ID\tUser\tLatitude\tLongitude\tValue\n"
  const Rule := "--------------------------------------------------\n"

  /** One line of a listing: "%s\t%s\t%.6f\t%.6f\t%d\n" of id, user, latitude, longitude, value. */
  function Row(t: Treasure): string {
    t.id + "\t" + t.user + "\t" + t.latitude.fixed6 + "\t" + t.longitude.fixed6 + "\t"
      + Decimal(t.value) + "\n"
  }

  /** One Row per record, in file order. */
  function Rows(rs: seq<Treasure>): string {
    if rs == [] then "" else Rows(rs[..|rs| - 1]) + Row(rs[|rs| - 1])
  }

  lemma RowsPrefix(rs: seq<Treasure>, k: nat)
    requires k < |rs|
    ensures Rows(rs[..k + 1]) == Rows(rs[..k]) + Row(rs[k])
  {
    assert rs[..k + 1][..k] == rs[..k];
  }

  lemma SurvivorsPrefix(rs: seq<Treasure>, id: string, k: nat)
    requires k < |rs|
    ensures Survivors(rs[..k + 1], id) == Survivors(rs[..k], id) + (if rs[k].id != id then [rs[k]] else [])
  {
    assert rs[..k + 1][..k] == rs[..k];
  }

  /** The read loop of a listing: read whole records until the first short read, appending
      one row for each. */
  method ScanRows(f: RecordFile) returns (text: string)
    ensures text == Rows(f.records)
  {
    text := "";
    var k := 0;
    while true
      invariant k <= |f.records|
      invariant text == Rows(f.records[..k])
      decreases |f.records| - k
    {
      var r := ReadAt(f, k);
      if r.None? {
        break;
      }
      RowsPrefix(f.records, k);
      text := text + Row(r.value);
      k := k + 1;
    }
    assert f.records[..k] == f.records;
  }

  /** The read loop of a view: read whole records until one has the id or a read comes back
      short. */
  method ScanFirst(f: RecordFile, id: string) returns (found: Option<Treasure>)
    ensures found.None? <==> FirstMatch(f.records, id).None?
    ensures found.Some? ==> found.value == f.records[FirstMatch(f.records, id).value]
  {
    found := None;
    var k := 0;
    while true
      invariant k <= |f.records|
      invariant forall j :: 0 <= j < k ==> f.records[j].id != id
      decreases |f.records| - k
    {
      var r := ReadAt(f, k);
      if r.None? {
        break;
      }
      if r.value.id == id {
        found := r;
        break;
      }
      k := k + 1;
    }
  }

  /** A record prints on one line when its text fields hold no line break. */
  predicate OneLine(t: Treasure) {
    '\n' !in t.id && '\n' !in t.user && '\n' !in t.latitude.fixed6 && '\n' !in t.longitude.fixed6
  }

  function LineBreaks(s: string): nat {
    if s == [] then 0 else LineBreaks(s[..|s| - 1]) + (if s[|s| - 1] == '\n' then 1 else 0)
  }

  lemma {:induction false} LineBreaksAppend(a: string, b: string)
    ensures LineBreaks(a + b) == LineBreaks(a) + LineBreaks(b)
  {
    if b != [] {
      assert (a + b)[..|a + b| - 1] == a + b[..|b| - 1];
      LineBreaksAppend(a, b[..|b| - 1]);
    } else {
      assert a + b == a;
    }
  }

  lemma {:induction false} LineBreaksNone(s: string)
    requires '\n' !in s
    ensures LineBreaks(s) == 0
  {
    if s != [] {
      LineBreaksNone(s[..|s| - 1]);
    }
  }

  lemma RowIsOneLine(t: Treasure)
    requires OneLine(t)
    ensures LineBreaks(Row(t)) == 1
  {
    var tab := "\t";
    LineBreaksNone(t.id);
    LineBreaksNone(t.user);
    LineBreaksNone(t.latitude.fixed6);
    LineBreaksNone(t.longitude.fixed6);
    LineBreaksNone(Decimal(t.value));
    LineBreaksNone(tab);
    LineBreaksAppend(t.id, tab);
    LineBreaksAppend(t.id + tab, t.user);
    LineBreaksAppend(t.id + tab + t.user, tab);
    LineBreaksAppend(t.id + tab + t.user + tab, t.latitude.fixed6);
    LineBreaksAppend(t.id + tab + t.user + tab + t.latitude.fixed6, tab);
    LineBreaksAppend(t.id + tab + t.user + tab + t.latitude.fixed6 + tab, t.longitude.fixed6);
    LineBreaksAppend(t.id + tab + t.user + tab + t.latitude.fixed6 + tab + t.longitude.fixed6, tab);
    LineBreaksAppend(t.id + tab + t.user + tab + t.latitude.fixed6 + tab + t.longitude.fixed6 + tab,
      Decimal(t.value));
    LineBreaksAppend(t.id + tab + t.user + tab + t.latitude.fixed6 + tab + t.longitude.fixed6 + tab
      + Decimal(t.value), "\n");
  }

  /** The rows of a listing hold exactly one line per whole record. */
  lemma {:induction false} RowsLines(rs: seq<Treasure>)
    requires forall i :: 0 <= i < |rs| ==> OneLine(rs[i])
    ensures LineBreaks(Rows(rs)) == |rs|
  {
    if rs != [] {
      RowsLines(rs[..|rs| - 1]);
      RowIsOneLine(rs[|rs| - 1]);
      LineBreaksAppend(Rows(rs[..|rs| - 1]), Row(rs[|rs| - 1]));
    }
  }
}
