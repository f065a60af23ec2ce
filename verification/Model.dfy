/** Domain types: field values, entries and snapshots, as values and as the mutable records the program shares. */
module Model {
  import opened Text

  type Key = string

  datatype Option<+T> = None | Some(value: T)

  /** Unset is the kind of the zero FeatureValue. */
  datatype FieldType = Unset | StringField | IntField | FloatField | BoolField

  /** A float is represented by its printed form. */
  datatype FeatureValue = FeatureValue(kind: FieldType, str: string, num: int, float: string, flag: bool, present: bool)

  const ZERO_VALUE := FeatureValue(Unset, "", 0, "", false, false)

  /** Times count from the zero instant, for which IsZero holds. */
  const ZERO_TIME: int := 0

  /** 64-bit two's-complement wrap-around. */
  function WrapInt64(x: int): (r: int)
    ensures -0x8000_0000_0000_0000 <= r < 0x8000_0000_0000_0000
    ensures -0x8000_0000_0000_0000 <= x < 0x8000_0000_0000_0000 ==> r == x
  {
    (x + 0x8000_0000_0000_0000) % 0x1_0000_0000_0000_0000 - 0x8000_0000_0000_0000
  }

  function IntValue(v: int): FeatureValue {
    FeatureValue(IntField, "", v, "", false, true)
  }

  function Show(v: FeatureValue): string {
    match v.kind
    case IntField => DecimalInt(v.num)
    case FloatField => v.float
    case BoolField => if v.flag then "true" else "false"
    case _ => v.str
  }

  type Fields = map<string, FeatureValue>

  datatype EntryValue = EntryValue(fields: Fields, versionID: string, writtenAt: int)

  datatype SnapshotValue = SnapshotValue(entity: Key, versionID: string, fields: Fields, writtenAt: int)

  function EmptySnapshot(key: Key, versionID: string): SnapshotValue {
    SnapshotValue(key, versionID, map[], ZERO_TIME)
  }

  /** The live entries by key: what the sharded store is an implementation of. */
  type Live = map<Key, EntryValue>

  function Lookup(live: Live, key: Key): Option<EntryValue> {
    if key in live then Some(live[key]) else None
  }

  /** What a record or field map belongs to: one shard cell, or a copy nothing live reaches. */
  datatype Place = Cell(shard: int, key: Key) | Detached

  /** A reference to a mutable field map. */
  class FieldMap {
    var m: Fields
    ghost const place: Place

    constructor (ghost place: Place)
      ensures m == map[] && this.place == place
    {
      m := map[];
      this.place := place;
    }
  }

  method CloneFields(fields: FieldMap, ghost place: Place) returns (out: FieldMap)
    ensures fresh(out) && out.m == fields.m && out.place == place
  {
    out := new FieldMap(place);
    var todo := fields.m.Keys;
    while todo != {}
      invariant todo <= fields.m.Keys
      invariant out.m == map name | name in fields.m && name !in todo :: fields.m[name]
    {
      var name :| name in todo;
      out.m := out.m[name := fields.m[name]];
      todo := todo - {name};
    }
  }

  /** The mutable record of one entity. */
  class Entry {
    const key: Key
    ghost const place: Place
    var fields: FieldMap
    var versionID: string
    var writtenAt: int

    ghost function Value(): EntryValue
      reads this, fields
    {
      EntryValue(fields.m, versionID, writtenAt)
    }

    constructor (key: Key, ghost place: Place)
      ensures this.key == key && this.place == place && fresh(fields) && fields.place == place
      ensures Value() == EntryValue(map[], "", ZERO_TIME)
    {
      this.key := key;
      this.place := place;
      fields := new FieldMap(place);
      versionID := "";
      writtenAt := ZERO_TIME;
    }

    method Set(fields: FieldMap, versionID: string, writtenAt: int)
      modifies this
      ensures this.fields == fields && Value() == EntryValue(fields.m, versionID, writtenAt)
    {
      this.fields := fields;
      this.versionID := versionID;
      this.writtenAt := writtenAt;
    }

    /** A deep copy: neither the record nor its field map is shared. */
    method Clone() returns (out: Entry)
      ensures fresh(out) && fresh(out.fields) && out.place == out.fields.place == Detached
      ensures out.key == key && out.Value() == Value()
    {
      out := new Entry(key, Detached);
      var copy := CloneFields(fields, Detached);
      out.fields := copy;
      out.versionID := versionID;
      out.writtenAt := writtenAt;
    }

    /** A read view over its own copy of the fields. */
    method Snapshot() returns (out: Snapshot)
      ensures fresh(out) && fresh(out.fields) && out.fields.place == Detached
      ensures out.Value() == SnapshotValue(key, versionID, fields.m, writtenAt)
    {
      var copy := CloneFields(fields, Detached);
      out := new Snapshot(key, versionID, copy, writtenAt);
    }
  }

  class Snapshot {
    const entity: Key
    const versionID: string
    const fields: FieldMap
    const writtenAt: int

    ghost function Value(): SnapshotValue
      reads fields
    {
      SnapshotValue(entity, versionID, fields.m, writtenAt)
    }

    constructor (entity: Key, versionID: string, fields: FieldMap, writtenAt: int)
      ensures this.fields == fields && Value() == SnapshotValue(entity, versionID, fields.m, writtenAt)
    {
      this.entity := entity;
      this.versionID := versionID;
      this.fields := fields;
      this.writtenAt := writtenAt;
    }

    method Clone() returns (out: Snapshot)
      ensures fresh(out) && fresh(out.fields) && out.fields.place == Detached && out.Value() == Value()
    {
      var copy := CloneFields(fields, Detached);
      out := new Snapshot(entity, versionID, copy, writtenAt);
    }
  }
}
