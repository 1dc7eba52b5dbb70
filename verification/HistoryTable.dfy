/**
  The weather history table as a value: one row per station and local date, the upsert that
  fills it, and the re-keying of the whole table under another timezone.

  Nothing here knows a real timezone rule: the local date of an instant is an arbitrary
  partial function, so every lemma holds whatever the zone database says.
 */
module HistoryTable {
  import opened Common

  type Uuid = string

  /** A timezone name that has been parsed, such as "Asia/Shanghai". */
  type Zone = string

  /** The rank of a date text in the database's text order (finitely many texts can be formatted). */
  type Date = int

  type Millis = int

  /** An encoded snapshot; never inspected. */
  type Blob = seq<nat>

  datatype Key = Key(uuid: Uuid, date: Date)
  datatype Row = Row(payload: Blob, fetchedAt: Millis)

  type Table = map<Key, Row>

  /** What the engine takes from its libraries: zone names, local dates, station identifiers. */
  datatype Env = Env(isZone: string -> bool,
                     dateOf: (Zone, Millis) -> Option<Date>,
                     uuidOf: string -> Uuid)

  // ----- The upsert -----

  /** A row replaces the one under its key unless it is strictly older. */
  function PutRow(t: Table, k: Key, row: Row): Table {
    if k in t && row.fetchedAt < t[k].fetchedAt then t else t[k := row]
  }

  /** Every row is filed under the local date of its own timestamp. */
  ghost predicate Dated(env: Env, zone: Zone, t: Table) {
    forall k | k in t :: env.dateOf(zone, t[k].fetchedAt) == Some(k.date)
  }

  // ----- The latest snapshot of a station -----

  /** `latest` is what a query for the newest row of `uuid` may answer. */
  ghost predicate IsLatest(t: Table, uuid: Uuid, latest: Option<Row>) {
    match latest
    case None => forall k | k in t :: k.uuid != uuid
    case Some(row) =>
      && (exists k | k in t :: k.uuid == uuid && t[k] == row)
      && (forall k | k in t && k.uuid == uuid :: t[k].fetchedAt <= row.fetchedAt)
  }

  /** The key of a newest row among `keys`. */
  lemma {:induction false} NewestKey(t: Table, keys: set<Key>) returns (best: Key)
    requires keys != {} && keys <= t.Keys
    ensures best in keys && forall k | k in keys :: t[k].fetchedAt <= t[best].fetchedAt
    decreases |keys|
  {
    var k :| k in keys;
    best := k;
    if keys != {k} {
      var rest := NewestKey(t, keys - {k});
      best := if t[k].fetchedAt <= t[rest].fetchedAt then rest else k;
    }
  }

  /** In a dated table the newest row of a station exists and is unique: ties are impossible. */
  lemma LatestIsUnique(env: Env, zone: Zone, t: Table, uuid: Uuid) returns (latest: Option<Row>)
    requires Dated(env, zone, t)
    ensures forall other :: IsLatest(t, uuid, other) <==> other == latest
  {
    var keys := set k | k in t && k.uuid == uuid;
    if keys == {} {
      latest := None;
      assert forall k | k in t :: k.uuid == uuid ==> k in keys;
    } else {
      var best := NewestKey(t, keys);
      latest := Some(t[best]);
      assert IsLatest(t, uuid, latest) by {
        forall k | k in t && k.uuid == uuid ensures t[k].fetchedAt <= t[best].fetchedAt {
          assert k in keys;
        }
      }
      forall other | IsLatest(t, uuid, other) ensures other == latest {
        if other.Some? {
          var k :| k in t && k.uuid == uuid && t[k] == other.value;
          assert k in keys && k.date == best.date;
        }
      }
    }
  }

  /** The newest row of a station; meaningful in a dated table. */
  ghost function Latest(t: Table, uuid: Uuid): Option<Row> {
    if exists latest :: IsLatest(t, uuid, latest) then
      var latest :| IsLatest(t, uuid, latest); latest
    else None
  }

  lemma LatestIs(env: Env, zone: Zone, t: Table, uuid: Uuid)
    requires Dated(env, zone, t)
    ensures forall other :: IsLatest(t, uuid, other) <==> other == Latest(t, uuid)
  {
    var latest := LatestIsUnique(env, zone, t, uuid);
    assert IsLatest(t, uuid, latest);
  }

  // ----- Re-keying under another timezone -----

  /** Every timestamp of the table has a local date in `zone`. */
  predicate Mappable(env: Env, zone: Zone, t: Table) {
    forall k | k in t :: env.dateOf(zone, t[k].fetchedAt).Some?
  }

  function NewKey(env: Env, zone: Zone, t: Table, k: Key): Key
    requires Mappable(env, zone, t) && k in t
  {
    Key(k.uuid, env.dateOf(zone, t[k].fetchedAt).value)
  }

  predicate Beats(t: Table, newer: Key, k: Key)
    requires newer in t && k in t
  {
    || t[newer].fetchedAt > t[k].fetchedAt
    || (t[newer].fetchedAt == t[k].fetchedAt && newer.date > k.date)
  }

  /** No other row that moves to the same new key is newer (older dates lose ties). */
  predicate Wins(env: Env, zone: Zone, t: Table, k: Key)
    requires Mappable(env, zone, t) && k in t
  {
    !exists newer | newer in t ::
      NewKey(env, zone, t, newer) == NewKey(env, zone, t, k) && Beats(t, newer, k)
  }

  /** The rows the rebuilt table receives, under their new keys; no two of them collide. */
  function Rekeyed(env: Env, zone: Zone, t: Table): Table
    requires Mappable(env, zone, t)
  {
    WinnersNeverCollide(env, zone, t);
    map k | k in t && Wins(env, zone, t, k) :: NewKey(env, zone, t, k) := t[k]
  }

  /** The primary key of the rebuilt table is never violated. */
  lemma WinnersNeverCollide(env: Env, zone: Zone, t: Table)
    requires Mappable(env, zone, t)
    ensures forall a, b | a in t && b in t && Wins(env, zone, t, a) && Wins(env, zone, t, b) ::
              NewKey(env, zone, t, a) == NewKey(env, zone, t, b) ==> a == b
  {
    forall a, b | a in t && b in t && Wins(env, zone, t, a) && Wins(env, zone, t, b)
                  && NewKey(env, zone, t, a) == NewKey(env, zone, t, b)
      ensures a == b
    {
      assert !Beats(t, a, b) && !Beats(t, b, a);
    }
  }

  /** Among rows that collide, one beats all the others. */
  lemma {:induction false} BestKey(t: Table, keys: set<Key>) returns (best: Key)
    requires keys != {} && keys <= t.Keys
    requires forall a, b | a in keys && b in keys :: a.uuid == b.uuid
    ensures best in keys && forall k | k in keys && k != best :: Beats(t, best, k)
    decreases |keys|
  {
    var k :| k in keys;
    best := k;
    if keys != {k} {
      var rest := BestKey(t, keys - {k});
      best := if Beats(t, k, rest) then k else rest;
      forall r | r in keys && r != best ensures Beats(t, best, r) {
        assert r == k || r == rest || Beats(t, rest, r);
      }
    }
  }

  /** Each row of the table has a winner at its new key, and loses to it unless it is that winner. */
  lemma WinnerOf(env: Env, zone: Zone, t: Table, k: Key) returns (best: Key)
    requires Mappable(env, zone, t) && k in t
    ensures best in t && Wins(env, zone, t, best)
    ensures NewKey(env, zone, t, best) == NewKey(env, zone, t, k)
    ensures best == k || Beats(t, best, k)
  {
    var rivals := set r | r in t && NewKey(env, zone, t, r) == NewKey(env, zone, t, k);
    assert k in rivals;
    best := BestKey(t, rivals);
    forall newer | newer in t && NewKey(env, zone, t, newer) == NewKey(env, zone, t, best)
      ensures !Beats(t, newer, best)
    {
      assert newer in rivals && (newer == best || Beats(t, best, newer));
    }
  }

  /** The new keys, one for each group of colliding rows. */
  function NewKeys(env: Env, zone: Zone, t: Table): set<Key>
    requires Mappable(env, zone, t)
  {
    set k | k in t :: NewKey(env, zone, t, k)
  }

  /** The staged row count always equals the expected one: exactly one row per new key. */
  lemma RekeyedKeys(env: Env, zone: Zone, t: Table)
    requires Mappable(env, zone, t)
    ensures Rekeyed(env, zone, t).Keys == NewKeys(env, zone, t)
    ensures |Rekeyed(env, zone, t)| == |NewKeys(env, zone, t)|
  {
    var u := Rekeyed(env, zone, t);
    forall n | n in NewKeys(env, zone, t) ensures n in u.Keys {
      var k :| k in t && NewKey(env, zone, t, k) == n;
      var best := WinnerOf(env, zone, t, k);
      WinnersNeverCollide(env, zone, t);
    }
    assert u.Keys == NewKeys(env, zone, t);
    assert |u| == |u.Keys|;
  }

  /** Every rebuilt row is an old row, unchanged, filed under its date in the new zone. */
  lemma RekeyedRow(env: Env, zone: Zone, t: Table, n: Key) returns (k: Key)
    requires Mappable(env, zone, t) && n in Rekeyed(env, zone, t)
    ensures k in t && Wins(env, zone, t, k)
    ensures NewKey(env, zone, t, k) == n && Rekeyed(env, zone, t)[n] == t[k]
  {
    WinnersNeverCollide(env, zone, t);
    k :| k in t && Wins(env, zone, t, k) && NewKey(env, zone, t, k) == n;
  }

  lemma RekeyedWinner(env: Env, zone: Zone, t: Table, k: Key)
    requires Mappable(env, zone, t) && k in t && Wins(env, zone, t, k)
    ensures NewKey(env, zone, t, k) in Rekeyed(env, zone, t)
    ensures Rekeyed(env, zone, t)[NewKey(env, zone, t, k)] == t[k]
  {
    WinnersNeverCollide(env, zone, t);
  }

  /** Each row either survives or is beaten by the one row kept under the same station and new date. */
  lemma DroppedRowIsBeaten(env: Env, zone: Zone, t: Table, k: Key) returns (kept: Key)
    requires Mappable(env, zone, t) && k in t
    ensures kept in t && Wins(env, zone, t, kept) && NewKey(env, zone, t, kept) == NewKey(env, zone, t, k)
    ensures NewKey(env, zone, t, k) in Rekeyed(env, zone, t)
    ensures Rekeyed(env, zone, t)[NewKey(env, zone, t, k)] == t[kept]
    ensures kept == k || t[kept].fetchedAt > t[k].fetchedAt
            || (t[kept].fetchedAt == t[k].fetchedAt && kept.date > k.date)
  {
    kept := WinnerOf(env, zone, t, k);
    RekeyedWinner(env, zone, t, kept);
  }

  lemma RekeyedIsDated(env: Env, zone: Zone, t: Table)
    requires Mappable(env, zone, t)
    ensures Dated(env, zone, Rekeyed(env, zone, t))
  {
    forall n | n in Rekeyed(env, zone, t)
      ensures env.dateOf(zone, Rekeyed(env, zone, t)[n].fetchedAt) == Some(n.date)
    {
      var k := RekeyedRow(env, zone, t, n);
    }
  }

  /** A migration never changes which snapshot is the newest of a station, nor its content. */
  lemma RekeyingKeepsLatest(env: Env, home: Zone, zone: Zone, t: Table, uuid: Uuid)
    requires Dated(env, home, t) && Mappable(env, zone, t)
    ensures Latest(Rekeyed(env, zone, t), uuid) == Latest(t, uuid)
  {
    RekeyedIsDated(env, zone, t);
    LatestIs(env, zone, Rekeyed(env, zone, t), uuid);
    LatestIs(env, home, t, uuid);
    RekeyingKeepsIsLatest(env, home, zone, t, uuid, Latest(t, uuid));
  }

  lemma RekeyingKeepsIsLatest(env: Env, home: Zone, zone: Zone, t: Table, uuid: Uuid, latest: Option<Row>)
    requires Dated(env, home, t) && Mappable(env, zone, t) && IsLatest(t, uuid, latest)
    ensures IsLatest(Rekeyed(env, zone, t), uuid, latest)
  {
    var u := Rekeyed(env, zone, t);
    forall n | n in u && n.uuid == uuid
      ensures latest.Some? && u[n].fetchedAt <= latest.value.fetchedAt
    {
      var k := RekeyedRow(env, zone, t, n);
    }
    if latest.Some? {
      var k :| k in t && k.uuid == uuid && t[k] == latest.value;
      NewestRowWins(env, home, zone, t, k);
      RekeyedWinner(env, zone, t, k);
    }
  }

  lemma NewestRowWins(env: Env, home: Zone, zone: Zone, t: Table, k: Key)
    requires Dated(env, home, t) && Mappable(env, zone, t) && k in t
    requires forall r | r in t && r.uuid == k.uuid :: t[r].fetchedAt <= t[k].fetchedAt
    ensures Wins(env, zone, t, k)
  {
    var best := WinnerOf(env, zone, t, k);
    assert t[best].fetchedAt == t[k].fetchedAt && best.date == k.date;
  }

  // ----- There and back -----

  /** `zone` keeps the rows of every station on distinct dates. */
  predicate KeepsDatesApart(env: Env, zone: Zone, t: Table)
    requires Mappable(env, zone, t)
  {
    forall a, b | a in t && b in t && NewKey(env, zone, t, a) == NewKey(env, zone, t, b) :: a == b
  }

  /** Where a surviving row of the other zone goes on the way back: to its original key. */
  lemma WayBack(env: Env, home: Zone, zone: Zone, t: Table, n: Key) returns (k: Key)
    requires Dated(env, home, t) && Mappable(env, zone, t) && n in Rekeyed(env, zone, t)
    ensures var u := Rekeyed(env, zone, t);
            Mappable(env, home, u) && k in t && Wins(env, zone, t, k)
            && NewKey(env, home, u, n) == k && u[n] == t[k] && Wins(env, home, u, n)
  {
    var u := Rekeyed(env, zone, t);
    forall m | m in u ensures env.dateOf(home, u[m].fetchedAt).Some? {
      var from := RekeyedRow(env, zone, t, m);
    }
    k := RekeyedRow(env, zone, t, n);
    forall m | m in u && NewKey(env, home, u, m) == k ensures m == n {
      var from := RekeyedRow(env, zone, t, m);
      assert from == k;
    }
  }

  lemma WayBackExists(env: Env, home: Zone, zone: Zone, t: Table)
    requires Dated(env, home, t) && Mappable(env, zone, t)
    ensures Mappable(env, home, Rekeyed(env, zone, t))
  {
    var u := Rekeyed(env, zone, t);
    forall n | n in u ensures env.dateOf(home, u[n].fetchedAt).Some? {
      var k := RekeyedRow(env, zone, t, n);
    }
  }

  lemma RowsReturnHome(env: Env, home: Zone, zone: Zone, t: Table, k: Key)
    requires Dated(env, home, t) && Mappable(env, zone, t) && Mappable(env, home, Rekeyed(env, zone, t))
    requires k in Rekeyed(env, home, Rekeyed(env, zone, t))
    ensures k in t && Rekeyed(env, home, Rekeyed(env, zone, t))[k] == t[k] && Wins(env, zone, t, k)
  {
    var n := RekeyedRow(env, home, Rekeyed(env, zone, t), k);
    var from := WayBack(env, home, zone, t, n);
  }

  lemma WinnersReturnHome(env: Env, home: Zone, zone: Zone, t: Table, k: Key)
    requires Dated(env, home, t) && Mappable(env, zone, t) && Mappable(env, home, Rekeyed(env, zone, t))
    requires k in t && Wins(env, zone, t, k)
    ensures k in Rekeyed(env, home, Rekeyed(env, zone, t))
  {
    RekeyedWinner(env, zone, t, k);
    var n := NewKey(env, zone, t, k);
    var from := WayBack(env, home, zone, t, n);
    RekeyedWinner(env, home, Rekeyed(env, zone, t), n);
  }

  /**
    Migrating there and back gives a sub-table of the original: the surviving rows return to their
    own keys, none is lost on the way back, and nothing is missing exactly when the other zone
    kept the dates of every station apart.
   */
  lemma ThereAndBack(env: Env, home: Zone, zone: Zone, t: Table)
    requires Dated(env, home, t) && Mappable(env, zone, t)
    ensures var u := Rekeyed(env, zone, t);
            && Mappable(env, home, u)
            && var back := Rekeyed(env, home, u);
               && (forall k | k in back :: k in t && back[k] == t[k])
               && (forall k | k in t :: k in back <==> Wins(env, zone, t, k))
               && |back| == |u|
               && (back == t <==> KeepsDatesApart(env, zone, t))
  {
    WayBackExists(env, home, zone, t);
    var back := Rekeyed(env, home, Rekeyed(env, zone, t));
    forall k | k in back ensures k in t && back[k] == t[k] && Wins(env, zone, t, k) {
      RowsReturnHome(env, home, zone, t, k);
    }
    forall k | k in t && Wins(env, zone, t, k) ensures k in back {
      WinnersReturnHome(env, home, zone, t, k);
    }
    NothingMergesOnTheWayBack(env, home, zone, t);
    KeptExactlyWhenApart(env, zone, t);
    SubTableIsWhole(back, t);
  }

  lemma SubTableIsWhole(part: Table, t: Table)
    requires forall k | k in part :: k in t && part[k] == t[k]
    ensures part == t <==> forall k | k in t :: k in part
  {
    if forall k | k in t :: k in part {
      assert part.Keys == t.Keys;
    }
  }

  lemma NothingMergesOnTheWayBack(env: Env, home: Zone, zone: Zone, t: Table)
    requires Dated(env, home, t) && Mappable(env, zone, t) && Mappable(env, home, Rekeyed(env, zone, t))
    ensures |Rekeyed(env, home, Rekeyed(env, zone, t))| == |Rekeyed(env, zone, t)|
  {
    var u := Rekeyed(env, zone, t);
    RekeyedKeys(env, home, u);
    forall a, b | a in u && b in u && NewKey(env, home, u, a) == NewKey(env, home, u, b) ensures a == b {
      var ka := WayBack(env, home, zone, t, a);
      var kb := WayBack(env, home, zone, t, b);
      var fa := RekeyedRow(env, zone, t, a);
      var fb := RekeyedRow(env, zone, t, b);
    }
    InjectiveImageSize(env, home, u, u.Keys);
    assert NewKeys(env, home, u) == set k | k in u.Keys :: NewKey(env, home, u, k);
  }

  lemma {:induction false} InjectiveImageSize(env: Env, zone: Zone, t: Table, keys: set<Key>)
    requires Mappable(env, zone, t) && keys <= t.Keys && KeepsDatesApart(env, zone, t)
    ensures |set k | k in keys :: NewKey(env, zone, t, k)| == |keys|
    decreases |keys|
  {
    var image := set k | k in keys :: NewKey(env, zone, t, k);
    if keys != {} {
      var k :| k in keys;
      var rest := set r | r in keys - {k} :: NewKey(env, zone, t, r);
      InjectiveImageSize(env, zone, t, keys - {k});
      assert image == rest + {NewKey(env, zone, t, k)};
    }
  }

  lemma KeptExactlyWhenApart(env: Env, zone: Zone, t: Table)
    requires Mappable(env, zone, t)
    ensures (forall k | k in t :: Wins(env, zone, t, k)) <==> KeepsDatesApart(env, zone, t)
  {
    if forall k | k in t :: Wins(env, zone, t, k) {
      WinnersNeverCollide(env, zone, t);
    }
  }

  // ----- The upsert against the newest row -----

  /** What one accepted snapshot does to the newest row of its station. */
  function Newer(latest: Option<Row>, row: Row): Row {
    if latest.Some? && row.fetchedAt < latest.value.fetchedAt then latest.value else row
  }

  /**
    Seen through the newest row alone, the dated table behaves as one register per station that
    keeps the last write among those with the greatest timestamp.
   */
  lemma PutLatest(env: Env, zone: Zone, t: Table, k: Key, row: Row, uuid: Uuid)
    requires Dated(env, zone, t) && env.dateOf(zone, row.fetchedAt) == Some(k.date)
    ensures Dated(env, zone, PutRow(t, k, row))
    ensures Latest(PutRow(t, k, row), uuid) ==
            if uuid == k.uuid then Some(Newer(Latest(t, uuid), row)) else Latest(t, uuid)
  {
    LatestIs(env, zone, t, uuid);
    LatestIs(env, zone, PutRow(t, k, row), uuid);
    if uuid == k.uuid {
      PutBecomesLatest(env, zone, t, k, row, Latest(t, uuid));
    } else {
      PutElsewhereKeepsLatest(t, k, row, uuid, Latest(t, uuid));
    }
  }

  lemma PutElsewhereKeepsLatest(t: Table, k: Key, row: Row, uuid: Uuid, latest: Option<Row>)
    requires uuid != k.uuid && IsLatest(t, uuid, latest)
    ensures IsLatest(PutRow(t, k, row), uuid, latest)
  {
    if latest.Some? {
      var newest :| newest in t && newest.uuid == uuid && t[newest] == latest.value;
      assert PutRow(t, k, row)[newest] == latest.value;
    }
  }

  lemma PutBecomesLatest(env: Env, zone: Zone, t: Table, k: Key, row: Row, latest: Option<Row>)
    requires Dated(env, zone, t) && env.dateOf(zone, row.fetchedAt) == Some(k.date)
    requires IsLatest(t, k.uuid, latest)
    ensures IsLatest(PutRow(t, k, row), k.uuid, Some(Newer(latest, row)))
  {
    var u := PutRow(t, k, row);
    if latest.Some? && row.fetchedAt < latest.value.fetchedAt {
      var newest :| newest in t && newest.uuid == k.uuid && t[newest] == latest.value;
      assert u[newest] == latest.value;
    } else {
      assert u[k] == row;
    }
  }
}
