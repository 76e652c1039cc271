/**
  The durable store: a key-value database that survives a process crash.
  Sketches live under a key prefix; a write either happens or fails.
 */
module Storage {
  import opened Base
  import opened WireFormat

  const KEY_PREFIX := "sketch/"

  type Database = map<string, seq<byte>>

  function Key(group: string): string
  {
    KEY_PREFIX + group
  }

  /** The prefixed keys, with the prefix trimmed. */
  function GroupsIn(db: Database): set<string>
  {
    set k | k in db && KEY_PREFIX <= k :: k[|KEY_PREFIX|..]
  }

  /** What LoadAll enumerates: the bytes stored for each group. */
  function SavedIn(db: Database): Wire
  {
    map g | g in GroupsIn(db) && Key(g) in db :: db[Key(g)]
  }

  lemma SavedAt(db: Database, group: string)
    ensures group in SavedIn(db) <==> Key(group) in db
    ensures Key(group) in db ==> SavedIn(db)[group] == db[Key(group)]
  {
  }

  lemma KeyInjective(g: string, h: string)
    ensures Key(g) == Key(h) <==> g == h
  {
    assert Key(g)[|KEY_PREFIX|..] == g && Key(h)[|KEY_PREFIX|..] == h;
  }

  /** Writing under a group's key changes that group and no other, whatever other keys the database holds. */
  lemma SetKey(db: Database, group: string, b: seq<byte>)
    ensures SavedIn(db[Key(group) := b]) == SavedIn(db)[group := b]
  {
    var after, l, r := db[Key(group) := b], SavedIn(db[Key(group) := b]), SavedIn(db)[group := b];
    forall g | g in l.Keys + r.Keys ensures g in l && g in r && l[g] == r[g] {
      SavedAt(db, g);
      SavedAt(after, g);
      SavedAt(after, group);
      KeyInjective(g, group);
    }
    assert l.Keys == r.Keys;
  }

  class Store {
    var db: Database

    ghost function Saved(): Wire
      reads this
    {
      SavedIn(db)
    }

    constructor Open(existing: Database)
      ensures db == existing
    {
      db := existing;
    }

    method Save(group: string, b: seq<byte>) returns (ok: bool)
      modifies this
      ensures Saved() == if ok then old(Saved())[group := b] else old(Saved())
      ensures db == if ok then old(db)["sketch/" + group := b] else old(db)
    {
      ok := *;
      if ok {
        SetKey(db, group, b);
        db := db[Key(group) := b];
      }
    }
  }
}
