/** The SQLite schema of the vault store: tables, defaults, the
    foreign-key rules and the random id generator. */
module Schema {
  import opened Wrappers

  newtype byte = x: int | 0 <= x < 256

  type Id = string

  /** datetime('now') text; its string order is its time order, so a number stands for it. */
  type Timestamp = int

  const DefaultTitle: string := "Untitled"
  const DefaultContent: string := ""
  const DefaultTagColor: string := "#00d4ff"
  /** generateId fills an 8-byte Uint8Array. */
  const IdBytes: nat := 8

  // ---------------------------------------------------------------- ids

  predicate IsHexChar(c: char)
  {
    '0' <= c <= '9' || 'a' <= c <= 'f'
  }

  function HexDigit(d: int): (c: char)
    requires 0 <= d < 16
    ensures IsHexChar(c)
  {
    if d < 10 then (48 + d) as char else (87 + d) as char
  }

  function HexValue(c: char): (d: int)
    requires IsHexChar(c)
    ensures 0 <= d < 16 && HexDigit(d) == c
  {
    if c <= '9' then c as int - 48 else c as int - 87
  }

  /** Number.prototype.toString(16): no leading zero. */
  function ToHex(b: byte): string
  {
    if b < 16 then [HexDigit(b as int)] else [HexDigit(b as int / 16), HexDigit(b as int % 16)]
  }

  /** padStart(2, '0') */
  function PadStart2(s: string): string
  {
    if |s| >= 2 then s else seq(2 - |s|, _ => '0') + s
  }

  /** Every byte becomes exactly two digits, high nibble first. */
  function ByteHex(b: byte): (r: string)
    ensures r == [HexDigit(b as int / 16), HexDigit(b as int % 16)]
  {
    PadStart2(ToHex(b))
  }

  function HexJoin(bytes: seq<byte>): (r: string)
    ensures |r| == 2 * |bytes|
    ensures forall i :: 0 <= i < |r| ==> IsHexChar(r[i])
  {
    if bytes == [] then [] else ByteHex(bytes[0]) + HexJoin(bytes[1..])
  }

  /** What generateId can return: 16 lowercase hexadecimal digits. */
  predicate IsId(s: string)
  {
    |s| == 2 * IdBytes && forall i :: 0 <= i < |s| ==> IsHexChar(s[i])
  }

  /** The random bytes are a parameter; the encoding is the source's. */
  function GenerateId(bytes: seq<byte>): (id: Id)
    requires |bytes| == IdBytes
    ensures IsId(id)
  {
    HexJoin(bytes)
  }

  function HexSplit(s: string): seq<byte>
    requires |s| % 2 == 0 && forall i :: 0 <= i < |s| ==> IsHexChar(s[i])
  {
    if s == [] then [] else [(16 * HexValue(s[0]) + HexValue(s[1])) as byte] + HexSplit(s[2..])
  }

  lemma {:induction false} SplitJoin(bytes: seq<byte>)
    ensures HexSplit(HexJoin(bytes)) == bytes
  {
    if bytes != [] {
      var s := HexJoin(bytes);
      var b := bytes[0] as int;
      assert s[..2] == ByteHex(bytes[0]);
      assert HexValue(s[0]) == b / 16 && HexValue(s[1]) == b % 16;
      assert s[2..] == HexJoin(bytes[1..]);
      SplitJoin(bytes[1..]);
    }
  }

  /** Distinct random draws give distinct ids: the encoding loses nothing. */
  lemma GenerateIdInjective(a: seq<byte>, b: seq<byte>)
    requires |a| == IdBytes && |b| == IdBytes
    ensures GenerateId(a) == GenerateId(b) ==> a == b
  {
    SplitJoin(a);
    SplitJoin(b);
  }

  // ---------------------------------------------------------------- rows

  /** A row of `notes`; folder_id and parent_id are nullable. */
  datatype NoteRow = NoteRow(id: Id, title: string, content: string,
                             folderId: Option<Id>, parentId: Option<Id>,
                             isPinned: int, sortOrder: int,
                             createdAt: Timestamp, updatedAt: Timestamp)

  datatype FolderRow = FolderRow(id: Id, name: string, parentId: Option<Id>, sortOrder: int,
                                 createdAt: Timestamp, updatedAt: Timestamp)

  datatype TagRow = TagRow(id: Id, name: string, color: string)

  /** The four tables; note_tags is a set because (note_id, tag_id) is its primary key. */
  datatype Tables = Tables(notes: map<Id, NoteRow>, folders: map<Id, FolderRow>,
                           tags: map<Id, TagRow>, noteTags: set<(Id, Id)>)

  const EmptyTables := Tables(map[], map[], map[], {})

  /** Constraint errors a statement can raise. */
  datatype DbError = PrimaryKeyTaken | ForeignKeyMissing | NotInitialized

  datatype Result<T> = Ok(value: T) | Err(error: DbError)

  /** A nullable reference that is null or names an existing key. */
  predicate RefOk<V>(r: Option<Id>, m: map<Id, V>)
  {
    r.None? || r.value in m
  }

  predicate NoteOk(t: Tables, k: Id)
    requires k in t.notes
  {
    IsId(k) && t.notes[k].id == k && RefOk(t.notes[k].folderId, t.folders) && RefOk(t.notes[k].parentId, t.notes)
  }

  predicate FolderOk(t: Tables, k: Id)
    requires k in t.folders
  {
    IsId(k) && t.folders[k].id == k && RefOk(t.folders[k].parentId, t.folders)
  }

  /** What the schema enforces (primary keys, ON with PRAGMA foreign_keys,
      the UNIQUE tag name), plus every id having come from GenerateId. */
  predicate Valid(t: Tables)
  {
    (forall k :: k in t.notes ==> NoteOk(t, k)) &&
    (forall k :: k in t.folders ==> FolderOk(t, k)) &&
    (forall k :: k in t.tags ==> IsId(k) && t.tags[k].id == k) &&
    (forall k1, k2 :: k1 in t.tags && k2 in t.tags && t.tags[k1].name == t.tags[k2].name ==> k1 == k2) &&
    (forall p :: p in t.noteTags ==> p.0 in t.notes && p.1 in t.tags)
  }

  /** The parent of k, if it is a stored note, ranks below k. */
  ghost predicate RankDrops(notes: map<Id, NoteRow>, rank: map<Id, nat>, k: Id)
    requires k in notes && k in rank
  {
    notes[k].parentId.Some? && notes[k].parentId.value in notes ==>
      notes[k].parentId.value in rank && rank[notes[k].parentId.value] < rank[k]
  }

  /** Parent links of notes form a forest: a rank that drops along every link. */
  ghost predicate Ranked(notes: map<Id, NoteRow>, rank: map<Id, nat>)
  {
    forall k :: k in notes ==> k in rank && RankDrops(notes, rank, k)
  }

  ghost predicate Acyclic(notes: map<Id, NoteRow>)
  {
    exists rank :: Ranked(notes, rank)
  }

  lemma EmptyIsValid()
    ensures Valid(EmptyTables) && Acyclic(EmptyTables.notes)
  {
    assert Ranked(EmptyTables.notes, map[]);
  }

  /** The open database: sql.js's in-memory instance. */
  class Database {
    var tables: Tables

    constructor(t: Tables)
      ensures tables == t
    {
      tables := t;
    }
  }

  /** The module-level `db` of the schema file. */
  class Connection {
    var db: Database?

    constructor()
      ensures db == null
    {
      db := null;
    }

    /** Opens the stored file when there is one, else an empty database;
        CREATE TABLE IF NOT EXISTS leaves stored tables as they are. */
    method InitDatabase(stored: Option<Tables>) returns (d: Database)
      modifies this
      ensures db == d && fresh(d)
      ensures d.tables == (if stored.Some? then stored.value else EmptyTables)
    {
      d := new Database(if stored.Some? then stored.value else EmptyTables);
      db := d;
    }

    /** Throws until InitDatabase has run. */
    method GetDb() returns (r: Result<Database>)
      ensures r.Err? <==> db == null
      ensures r.Err? ==> r.error == NotInitialized
      ensures r.Ok? ==> r.value == db
    {
      if db == null {
        r := Err(NotInitialized);
      } else {
        r := Ok(db);
      }
    }
  }
}
