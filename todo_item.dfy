/**
 A single to-do entry and the facts about sequences of entries that the list
 store relies on: identity by `id`, and the whole-value flip of the
 completion flag that a row performs through its binding.
 */
module Items {

  /** An opaque identifier. The platform's random UUIDs are modelled as
      naturals supplied by the caller; only their equality matters. */
  type Uuid = nat

  /** One entry of the list. Datatype equality is field-wise over all three
      fields, like the synthesised `Equatable` conformance. `id` is never
      updated by any operation of the model. */
  datatype TodoItem = TodoItem(id: Uuid, title: string, isCompleted: bool)

  /** The entry with its completion flag flipped: the effect of
      `isCompleted.toggle()` on a bound entry. */
  function Toggled(t: TodoItem): (r: TodoItem)
    ensures r.id == t.id && r.title == t.title
    ensures r.isCompleted <==> !t.isCompleted
    ensures r != t
  {
    t.(isCompleted := !t.isCompleted)
  }

  /** Flipping twice gives back the original entry. */
  lemma ToggledTwice(t: TodoItem)
    ensures Toggled(Toggled(t)) == t
  {
  }

  /** Equality of entries is equality of every field. */
  lemma ItemEqualityIsFieldwise(a: TodoItem, b: TodoItem)
    ensures a == b <==> a.id == b.id && a.title == b.title && a.isCompleted == b.isCompleted
  {
  }

  /** The identifiers of a list, position by position. */
  function Ids(s: seq<TodoItem>): (ids: seq<Uuid>)
    ensures |ids| == |s|
    ensures forall k :: 0 <= k < |s| ==> ids[k] == s[k].id
  {
    seq(|s|, k requires 0 <= k < |s| => s[k].id)
  }

  /** No two positions of the list hold entries with the same identifier. */
  predicate DistinctIds(s: seq<TodoItem>)
  {
    forall i, j :: 0 <= i < j < |s| ==> s[i].id != s[j].id
  }

  /** Prepending keeps identifiers distinct exactly when the list already had
      distinct identifiers and the new entry's identifier is not among them. */
  lemma PrependDistinctIds(item: TodoItem, s: seq<TodoItem>)
    ensures DistinctIds([item] + s) <==> DistinctIds(s) && item.id !in Ids(s)
  {
    var r := [item] + s;
    if DistinctIds(r) {
      forall i, j | 0 <= i < j < |s| ensures s[i].id != s[j].id {
        assert r[i + 1] == s[i] && r[j + 1] == s[j];
      }
      forall k | 0 <= k < |s| ensures Ids(s)[k] != item.id {
        assert r[0].id != r[k + 1].id;
      }
    }
    if DistinctIds(s) && item.id !in Ids(s) {
      forall i, j | 0 <= i < j < |r| ensures r[i].id != r[j].id {
        if i == 0 {
          assert r[j].id == Ids(s)[j - 1];
        } else {
          assert r[i] == s[i - 1] && r[j] == s[j - 1];
        }
      }
    }
  }
}
