/** The one domain record of the application and a small optional-value wrapper. */
module Records {

  /** An optional value: the model's stand-in for JavaScript's `null`/`undefined`. */
  datatype Option<+T> = None | Some(value: T)

  /** A seminar as stored in the JSON document and exchanged with the client.
      The source types `id` as a JavaScript number; the model uses an integer. */
  datatype Seminar = Seminar(
    id: int,
    title: string,
    description: string,
    date: string,
    time: string,
    photo: string)

  /** True when no two records of `s` share an id (the collection's intended invariant). */
  predicate UniqueIds(s: seq<Seminar>)
  {
    forall i, j :: 0 <= i < |s| && 0 <= j < |s| && i != j ==> s[i].id != s[j].id
  }

  /** True when some record of `s` carries `id`. */
  predicate HasId(s: seq<Seminar>, id: int)
  {
    exists i :: 0 <= i < |s| && s[i].id == id
  }
}
