/** The todo entity, the remote record it is read from, and the field overlay
    (`{ ...todo, ...patch }`) the reducer uses to edit it. */
module Todos {
  import opened Wrappers

  /** A todo after normalisation: the completion flag is always present. */
  datatype Todo = Todo(id: string, title: string, isCompleted: bool)

  /** The `fields` object of a remote record; the completion flag may be absent. */
  datatype Fields = Fields(title: string, isCompleted: Option<bool>)

  /** A remote record `{ id, fields }`. */
  datatype Record = Record(id: string, fields: Fields)

  /** An `editedTodo` payload: the id to match and the fields it carries. */
  datatype Patch = Patch(id: string, title: Option<string>, isCompleted: Option<bool>)

  /** `{ id: record.id, ...record.fields }`, with a missing or false completion flag set to false. */
  function ToTodo(r: Record): (t: Todo)
    ensures t.id == r.id && t.title == r.fields.title
    ensures r.fields.isCompleted != Some(true) ==> !t.isCompleted
    ensures r.fields.isCompleted == Some(true) ==> t.isCompleted
  {
    Todo(r.id, r.fields.title, r.fields.isCompleted.GetOr(false))
  }

  /** The record shape a normalised todo is stored as. */
  function ToRecord(t: Todo): Record {
    Record(t.id, Fields(t.title, Some(t.isCompleted)))
  }

  /** Reading back a stored todo gives the todo; so normalising twice is normalising once. */
  lemma NormaliseRoundTrip(t: Todo, r: Record)
    ensures ToTodo(ToRecord(t)) == t
    ensures ToTodo(ToRecord(ToTodo(r))) == ToTodo(r)
  {
  }

  /** The normalisation of each record, in record order. */
  function ToTodos(records: seq<Record>): (ts: seq<Todo>)
    ensures |ts| == |records|
    ensures forall i :: 0 <= i < |records| ==>
      ts[i].id == records[i].id && ts[i].title == records[i].fields.title
    ensures forall i :: 0 <= i < |records| ==>
      (ts[i].isCompleted <==> records[i].fields.isCompleted == Some(true))
  {
    if records == [] then [] else [ToTodo(records[0])] + ToTodos(records[1..])
  }

  /** A whole todo used as an `editedTodo`: every field is present. */
  function WholePatch(t: Todo): Patch {
    Patch(t.id, Some(t.title), Some(t.isCompleted))
  }

  /** `{ ...t, ...p }`: the fields `p` carries replace those of `t`. */
  function Overlay(t: Todo, p: Patch): (u: Todo)
    ensures u.id == t.id
    ensures p.title.Some? ==> u.title == p.title.value
    ensures p.title.None? ==> u.title == t.title
    ensures p.isCompleted.Some? ==> u.isCompleted == p.isCompleted.value
    ensures p.isCompleted.None? ==> u.isCompleted == t.isCompleted
  {
    Todo(t.id, p.title.GetOr(t.title), p.isCompleted.GetOr(t.isCompleted))
  }

  /** Overlaying a whole todo onto the todo with its id yields that todo. */
  lemma OverlayWhole(t: Todo, e: Todo)
    requires t.id == e.id
    ensures Overlay(t, WholePatch(e)) == e
  {
  }

  /** `list.map(t => t.id === p.id ? { ...t, ...p } : t)`. */
  function OverlayById(xs: seq<Todo>, p: Patch): (ys: seq<Todo>)
    ensures |ys| == |xs|
    ensures forall i :: 0 <= i < |xs| ==> ys[i].id == xs[i].id
    ensures forall i :: 0 <= i < |xs| && xs[i].id != p.id ==> ys[i] == xs[i]
    ensures forall i :: 0 <= i < |xs| && xs[i].id == p.id ==> ys[i] == Overlay(xs[i], p)
  {
    if xs == [] then []
    else [if xs[0].id == p.id then Overlay(xs[0], p) else xs[0]] + OverlayById(xs[1..], p)
  }

  /** No two entries of the list share an id. */
  predicate UniqueIds(xs: seq<Todo>) {
    forall i, j :: 0 <= i < j < |xs| ==> xs[i].id != xs[j].id
  }

  /** The ids of the list, in order. */
  function Ids(xs: seq<Todo>): (ids: seq<string>)
    ensures |ids| == |xs|
    ensures forall i :: 0 <= i < |xs| ==> ids[i] == xs[i].id
  {
    if xs == [] then [] else [xs[0].id] + Ids(xs[1..])
  }

  /** Overlaying by id never changes the ids, so it keeps them unique. */
  lemma OverlayKeepsIds(xs: seq<Todo>, p: Patch)
    ensures Ids(OverlayById(xs, p)) == Ids(xs)
    ensures UniqueIds(xs) ==> UniqueIds(OverlayById(xs, p))
  {
  }

  /** Overlaying the original todo after any overlay on its id restores a list with unique ids. */
  lemma {:induction false} OverlayRestores(xs: seq<Todo>, p: Patch, k: nat)
    requires UniqueIds(xs) && k < |xs| && p.id == xs[k].id
    ensures OverlayById(OverlayById(xs, p), WholePatch(xs[k])) == xs
  {
    var ys := OverlayById(OverlayById(xs, p), WholePatch(xs[k]));
    forall i | 0 <= i < |xs|
      ensures ys[i] == xs[i]
    {
      if i != k {
        assert xs[i].id != xs[k].id;
      }
    }
  }
}
