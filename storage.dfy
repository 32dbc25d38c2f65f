/**
 Persistence of the list: one key of the platform's key-value store holding
 the JSON encoding of the whole list. The JSON codec is abstracted to a value
 that either carries an encoded list or is something the decoder rejects.
 */
module Storage {
  import opened Items

  datatype Option<T> = None | Some(value: T)

  /** A value stored under a key: the encoding of a list of entries, or data
      that does not decode as one (written by something else, or damaged). */
  datatype Blob = EncodedList(items: seq<TodoItem>) | Unreadable

  /** The single key under which the list is kept. */
  const TodosDataKey: string := "todosDataKey"

  /** Decoding a stored value back into a list; it fails exactly on data
      that is not the encoding of a list. */
  function Decode(b: Blob): (r: Option<seq<TodoItem>>)
    ensures r.None? <==> b == Unreadable
  {
    match b
    case EncodedList(items) => Some(items)
    case Unreadable => None
  }

  /** Encoding the whole list; decoding the result loses none of id, title
      and completion flag of any entry. */
  function Encode(s: seq<TodoItem>): (b: Blob)
    ensures Decode(b) == Some(s)
  {
    EncodedList(s)
  }

  /** The store after one save attempt of `s`: when encoding succeeds the key
      is overwritten with the whole list; when it fails the store is left as
      it was and nothing is reported. No other key is touched. */
  function Saved(data: map<string, Blob>, s: seq<TodoItem>, encodeOk: bool): (r: map<string, Blob>)
    ensures encodeOk ==> TodosDataKey in r && Decode(r[TodosDataKey]) == Some(s)
    ensures !encodeOk ==> r == data
    ensures r.Keys - {TodosDataKey} == data.Keys - {TodosDataKey}
    ensures forall k :: k in data && k != TodosDataKey ==> k in r && r[k] == data[k]
  {
    if encodeOk then data[TodosDataKey := Encode(s)] else data
  }

  /** The fixed sample list used when nothing usable is stored. The two ids
      stand for two freshly generated UUIDs. */
  function Seed(firstId: Uuid, secondId: Uuid): (s: seq<TodoItem>)
    ensures Ids(s) == [firstId, secondId]
    ensures DistinctIds(s) <==> firstId != secondId
  {
    var s := [ TodoItem(firstId, "MVVM 패턴 배우기", false),
               TodoItem(secondId, "코드 리팩토링", true) ];
    assert s[0].id == firstId && s[1].id == secondId;
    s
  }

  /** The sample list has two entries with the fixed titles, the first not
      completed and the second completed. */
  lemma SeedShape(firstId: Uuid, secondId: Uuid)
    ensures var s := Seed(firstId, secondId);
      && |s| == 2
      && s[0].title == "MVVM 패턴 배우기" && !s[0].isCompleted
      && s[1].title == "코드 리팩토링" && s[1].isCompleted
  {
  }

  /** The list a launch starts with: the decoded stored list when the key is
      present and decodes, the sample list otherwise. */
  function Loaded(data: map<string, Blob>, firstId: Uuid, secondId: Uuid): (s: seq<TodoItem>)
    ensures s == Seed(firstId, secondId) || (TodosDataKey in data && Decode(data[TodosDataKey]) == Some(s))
  {
    if TodosDataKey in data && Decode(data[TodosDataKey]).Some? then
      Decode(data[TodosDataKey]).value
    else
      Seed(firstId, secondId)
  }

  /** With nothing stored, or with stored data that does not decode, a launch
      starts from the sample list. */
  lemma LoadFallsBackToSeed(data: map<string, Blob>, firstId: Uuid, secondId: Uuid)
    requires TodosDataKey !in data || data[TodosDataKey] == Unreadable
    ensures Loaded(data, firstId, secondId) == Seed(firstId, secondId)
  {
  }

  /** A successful save followed by a launch gives back exactly the saved list. */
  lemma LoadAfterSaveRestores(data: map<string, Blob>, s: seq<TodoItem>, firstId: Uuid, secondId: Uuid)
    ensures Loaded(Saved(data, s, true), firstId, secondId) == s
  {
  }

  /** Whenever the slot holds a list, a launch starts from exactly that list. */
  lemma LoadFromPersisted(data: map<string, Blob>, s: seq<TodoItem>, firstId: Uuid, secondId: Uuid)
    requires TodosDataKey in data && Decode(data[TodosDataKey]) == Some(s)
    ensures Loaded(data, firstId, secondId) == s
  {
  }

  /** A launch keeps ids distinct provided the stored list, when it is
      used, had distinct ids, and the two fresh ids differ when the sample
      list is used. */
  lemma LoadedDistinctIds(data: map<string, Blob>, firstId: Uuid, secondId: Uuid)
    requires TodosDataKey in data && Decode(data[TodosDataKey]).Some? ==>
               DistinctIds(Decode(data[TodosDataKey]).value)
    requires !(TodosDataKey in data && Decode(data[TodosDataKey]).Some?) ==> firstId != secondId
    ensures DistinctIds(Loaded(data, firstId, secondId))
  {
  }
}
