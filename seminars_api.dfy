/** The collection-level route handlers: `GET` lists the stored seminars and `POST`
    creates one with a fresh id. The JSON file on disk is a `SeminarsFile` object whose
    parsed content is a `Document`; reading, parsing and writing it are oracles. */
module SeminarsApi {
  import opened Records

  /** What reading and parsing the backing file yields. */
  datatype Document =
    | Unreadable                       // the file cannot be read
    | Malformed                        // the text is not valid JSON
    | Parsed(seminars: seq<Seminar>)   // `{ seminars: [...] }`

  /** The backing JSON file, shared by every request. */
  class SeminarsFile {
    var document: Document

    constructor (document: Document)
      ensures this.document == document
    {
      this.document := document;
    }
  }

  /** The object `{ seminars: [...] }` a handler parses and then changes in place. */
  class SeminarsData {
    var seminars: seq<Seminar>

    constructor (seminars: seq<Seminar>)
      ensures this.seminars == seminars
    {
      this.seminars := seminars;
    }

    /** `data.seminars.push(seminar)` */
    method Push(seminar: Seminar)
      modifies this
      ensures seminars == old(seminars) + [seminar]
    {
      seminars := seminars + [seminar];
    }
  }

  /** The answer of `POST`. */
  datatype PostResponse = Created(seminar: Seminar) | CreateFailed
  {
    function Status(): (code: int)
    {
      if Created? then 201 else 500
    }
  }

  /** `getSeminarsData`: fail-open load. A file that cannot be read or parsed reads as
      the empty collection; a parsed file yields its records unchanged. */
  function GetSeminarsData(document: Document): (data: seq<Seminar>)
    ensures document.Parsed? ==> data == document.seminars
    ensures !document.Parsed? ==> data == []
  {
    match document
    case Parsed(seminars) => seminars
    case _ => []
  }

  /** `writeSeminarsData`: overwrites the whole file with `data` when the write succeeds
      (`writeOk`), leaves it as it was otherwise, and reports which happened. */
  method WriteSeminarsData(file: SeminarsFile, data: seq<Seminar>, writeOk: bool) returns (ok: bool)
    modifies file
    ensures ok == writeOk
    ensures file.document == if writeOk then Parsed(data) else old(file.document)
  {
    if writeOk {
      file.document := Parsed(data);
    }
    ok := writeOk;
  }

  /** The `reduce` step of the id computation, from accumulator `max` over `s`:
      the largest of `max` and every id in `s`. */
  function MaxIdFrom(max: int, s: seq<Seminar>): (m: int)
    ensures m >= max
    ensures forall i :: 0 <= i < |s| ==> s[i].id <= m
    ensures m == max || exists i :: 0 <= i < |s| && s[i].id == m
    decreases |s|
  {
    if s == [] then max
    else MaxIdFrom(if s[0].id > max then s[0].id else max, s[1..])
  }

  /** `maxId`: the fold with initial value 0, i.e. the maximum of 0 and every id. */
  function MaxId(s: seq<Seminar>): (m: int)
    ensures m >= 0
    ensures forall i :: 0 <= i < |s| ==> s[i].id <= m
    ensures m == 0 || exists i :: 0 <= i < |s| && s[i].id == m
    ensures s == [] ==> m == 0
  {
    MaxIdFrom(0, s)
  }

  /** The id `POST` assigns: greater than every stored id and at least 1. */
  function NextId(s: seq<Seminar>): (id: int)
    ensures id >= 1
    ensures forall i :: 0 <= i < |s| ==> s[i].id < id
    ensures !HasId(s, id)
    ensures s == [] ==> id == 1
  {
    MaxId(s) + 1
  }

  /** The record `POST` stores and returns: the payload with its id replaced. */
  function WithAssignedId(s: seq<Seminar>, payload: Seminar): (created: Seminar)
    ensures created.id == NextId(s)
    ensures created.(id := payload.id) == payload
  {
    payload.(id := NextId(s))
  }

  /** `GET`: the loaded collection, same records in the same order, with status 200. */
  method Get(file: SeminarsFile) returns (status: int, seminars: seq<Seminar>)
    ensures status == 200
    ensures file.document.Parsed? ==> seminars == file.document.seminars
    ensures !file.document.Parsed? ==> seminars == []
  {
    var data := new SeminarsData(GetSeminarsData(file.document));
    status, seminars := 200, data.seminars;
  }

  /** `POST`: parse the body (`None` when the request body is not JSON), load, assign
      `maxId + 1` over the loaded records, append, write, and answer 201 with the stored
      record. The write's outcome is not consulted: 201 is returned even when it failed. */
  method Post(file: SeminarsFile, body: Option<Seminar>, writeOk: bool) returns (response: PostResponse)
    modifies file
    ensures body.None? ==> response == CreateFailed && file.document == old(file.document)
    ensures body.Some? ==>
      var loaded := GetSeminarsData(old(file.document));
      var created := WithAssignedId(loaded, body.value);
      && response == Created(created)
      && file.document == if writeOk then Parsed(loaded + [created]) else old(file.document)
  {
    if body.None? {
      return CreateFailed;
    }
    var newSeminar := body.value;
    var data := new SeminarsData(GetSeminarsData(file.document));
    var maxId := MaxId(data.seminars);
    newSeminar := newSeminar.(id := maxId + 1);
    data.Push(newSeminar);
    var _ := WriteSeminarsData(file, data.seminars, writeOk);
    response := Created(newSeminar);
  }

  /** Appending one more record to the fold's input: the result is the larger of the
      previous result and the new record's id. */
  lemma {:induction false} MaxIdFromAppend(max: int, s: seq<Seminar>, x: Seminar)
    ensures MaxIdFrom(max, s + [x]) == if x.id > MaxIdFrom(max, s) then x.id else MaxIdFrom(max, s)
    decreases |s|
  {
    if s != [] {
      assert (s + [x])[0] == s[0] && (s + [x])[1..] == s[1..] + [x];
      MaxIdFromAppend(if s[0].id > max then s[0].id else max, s[1..], x);
    } else {
      assert (s + [x])[1..] == [];
    }
  }

  /** Two creates in a row receive consecutive ids: the created record becomes the
      new maximum. */
  lemma CreateRaisesMaxByOne(s: seq<Seminar>, payload: Seminar)
    ensures MaxId(s + [WithAssignedId(s, payload)]) == MaxId(s) + 1
    ensures NextId(s + [WithAssignedId(s, payload)]) == NextId(s) + 1
  {
    MaxIdFromAppend(0, s, WithAssignedId(s, payload));
  }

  /** After a create the old records are untouched and in order, the new one is last,
      and a collection whose ids were distinct keeps them distinct. */
  lemma CreateAppendsFreshRecord(s: seq<Seminar>, payload: Seminar)
    ensures var t := s + [WithAssignedId(s, payload)];
      && |t| == |s| + 1
      && t[..|s|] == s
      && t[|s|] == WithAssignedId(s, payload)
      && (UniqueIds(s) ==> UniqueIds(t))
  {
    var created := WithAssignedId(s, payload);
    var t := s + [created];
    if UniqueIds(s) {
      forall i, j | 0 <= i < |t| && 0 <= j < |t| && i != j
        ensures t[i].id != t[j].id
      {
        if i < |s| && j < |s| {
          assert t[i] == s[i] && t[j] == s[j];
        } else if i < |s| {
          assert t[i] == s[i] && t[j] == created;
        } else if j < |s| {
          assert t[j] == s[j] && t[i] == created;
        }
      }
    }
  }

  /** A file that cannot be read or parsed loads as the empty collection, so the first
      record created over it gets id 1. */
  lemma FailOpenLoadStartsAtOne(document: Document, payload: Seminar)
    requires !document.Parsed?
    ensures GetSeminarsData(document) == []
    ensures WithAssignedId(GetSeminarsData(document), payload).id == 1
  {
  }

  /** A collection holding ids 1 and 3 gives the next record id 4. */
  lemma NextIdAfterGap(a: Seminar, b: Seminar)
    requires a.id == 1 && b.id == 3
    ensures NextId([a, b]) == 4
  {
    assert [a, b][1..] == [b] && [b][1..] == [];
    assert MaxIdFrom(0, [a, b]) == MaxIdFrom(1, [b]) == MaxIdFrom(3, []) == 3;
  }
}
