/** The slide collection of BBoardActivity.py: the `Slide` record, the
    duplicate-free merge of a received record (`_load`, `_slide_search`) and
    the field list a slide is shared as (`_dump`). Python is untyped, so a
    slide's fields are modelled as the values a JSON decoder can produce,
    plus an opaque pixbuf. */
module Slides {
  import opened Outcomes

  /** An opaque raster image. */
  datatype Image = Image(handle: nat)

  datatype Value =
    | Null
    | Bool(b: bool)
    | Num(n: int)
    | Str(s: string)
    | List(items: seq<Value>)
    | Pixbuf(image: Image)

  /** `Slide(owner, uid, colors, title, pixbuf, desc)`; `owner` is true for
      slides built from this peer's own starred entries. */
  datatype Slide = Slide(owner: bool, uid: Value, colors: Value, title: Value, image: Value, desc: Value)

  /** `_slide_search(uid)`: is a slide with this uid already in the list? */
  function SlideSearch(slides: seq<Slide>, uid: Value): (found: bool)
    ensures found <==> exists k :: 0 <= k < |slides| && slides[k].uid == uid
  {
    if |slides| == 0 then false
    else slides[0].uid == uid || SlideSearch(slides[1..], uid)
  }

  ghost function Uids(slides: seq<Slide>): set<Value>
  {
    set k | 0 <= k < |slides| :: slides[k].uid
  }

  /** No two slides share a uid. */
  ghost predicate UniqueUids(slides: seq<Slide>)
  {
    forall a, b :: 0 <= a < b < |slides| ==> slides[a].uid != slides[b].uid
  }

  /** The slide `_load` builds from a five-field record: remote, with the
      image read from field 4 and the description from field 3. */
  function FromRecord(fields: seq<Value>): Slide
    requires |fields| == 5
  {
    Slide(false, fields[0], fields[1], fields[2], fields[4], fields[3])
  }

  /** Does `_load` append this record? Only a five-field record whose uid is
      not yet present. */
  predicate Accepts(slides: seq<Slide>, fields: seq<Value>)
  {
    |fields| == 5 && !SlideSearch(slides, fields[0])
  }

  /** `_load` on an already decoded record: the slides already held are
      kept as they are, and an accepted record adds one remote slide at the
      end. */
  function Load(slides: seq<Slide>, fields: seq<Value>): (r: seq<Slide>)
    ensures |r| == |slides| + (if Accepts(slides, fields) then 1 else 0)
    ensures r[..|slides|] == slides
    ensures Accepts(slides, fields) ==>
      r[|slides|] == Slide(false, fields[0], fields[1], fields[2], fields[4], fields[3])
  {
    if Accepts(slides, fields) then slides + [FromRecord(fields)] else slides
  }

  /** Loading keeps the uids unique. */
  lemma LoadKeepsUnique(slides: seq<Slide>, fields: seq<Value>)
    requires UniqueUids(slides)
    ensures UniqueUids(Load(slides, fields))
  {
  }

  /** Loading the same record twice is the same as loading it once. */
  lemma LoadIdempotent(slides: seq<Slide>, fields: seq<Value>)
    ensures Load(Load(slides, fields), fields) == Load(slides, fields)
  {
    if Accepts(slides, fields) {
      var once := Load(slides, fields);
      assert once[|slides|].uid == fields[0];
      assert SlideSearch(once, fields[0]);
    }
  }

  /** After a load the record's uid is present whenever the record had five
      fields: either it was there already or it was just added. */
  lemma LoadCoversUid(slides: seq<Slide>, fields: seq<Value>)
    requires |fields| == 5
    ensures fields[0] in Uids(Load(slides, fields))
  {
    var r := Load(slides, fields);
    if Accepts(slides, fields) {
      assert r[|slides|].uid == fields[0];
    } else {
      var k :| 0 <= k < |slides| && slides[k].uid == fields[0];
      assert r[k] == slides[k];
    }
  }

  /** A run of loads, in arrival order. */
  function LoadAll(slides: seq<Slide>, records: seq<seq<Value>>): seq<Slide>
    decreases |records|
  {
    if |records| == 0 then slides else LoadAll(Load(slides, records[0]), records[1..])
  }

  /** A run of loads never disturbs what was already held and keeps the
      uids unique. */
  lemma {:induction false} LoadAllExtends(slides: seq<Slide>, records: seq<seq<Value>>)
    ensures |LoadAll(slides, records)| >= |slides|
    ensures LoadAll(slides, records)[..|slides|] == slides
    ensures UniqueUids(slides) ==> UniqueUids(LoadAll(slides, records))
    decreases |records|
  {
    if |records| > 0 {
      var next := Load(slides, records[0]);
      LoadAllExtends(next, records[1..]);
      if UniqueUids(slides) {
        LoadKeepsUnique(slides, records[0]);
      }
      assert LoadAll(slides, records)[..|next|] == next;
      assert next[..|slides|] == slides;
    }
  }

  /** Every five-field record of the run leaves its uid in the collection. */
  lemma {:induction false} LoadAllCoversUids(slides: seq<Slide>, records: seq<seq<Value>>, k: nat)
    requires k < |records| && |records[k]| == 5
    ensures records[k][0] in Uids(LoadAll(slides, records))
    decreases |records|
  {
    var next := Load(slides, records[0]);
    if k == 0 {
      LoadCoversUid(slides, records[0]);
      var i :| 0 <= i < |next| && next[i].uid == records[0][0];
      LoadAllExtends(next, records[1..]);
      assert LoadAll(slides, records)[i] == LoadAll(slides, records)[..|next|][i];
    } else {
      LoadAllCoversUids(next, records[1..], k - 1);
    }
  }

  /** The first arrival wins: the earliest five-field record for a uid that
      was not held before is the one kept, whatever duplicates follow. */
  lemma {:induction false} LoadAllFirstWins(slides: seq<Slide>, records: seq<seq<Value>>, k: nat)
    requires k < |records| && |records[k]| == 5
    requires !SlideSearch(slides, records[k][0])
    requires forall j :: 0 <= j < k && |records[j]| == 5 ==> records[j][0] != records[k][0]
    ensures FromRecord(records[k]) in LoadAll(slides, records)
    decreases |records|
  {
    var next := Load(slides, records[0]);
    LoadAllExtends(next, records[1..]);
    if k == 0 {
      assert next[|slides|] == FromRecord(records[0]);
      assert LoadAll(slides, records)[|slides|] == LoadAll(slides, records)[..|next|][|slides|];
    } else {
      assert !SlideSearch(next, records[k][0]) by {
        if Accepts(slides, records[0]) {
          assert next == slides + [FromRecord(records[0])];
        }
      }
      forall j | 0 <= j < k - 1 && |records[1..][j]| == 5
        ensures records[1..][j][0] != records[1..][k - 1][0]
      {
        assert records[1..][j] == records[j + 1];
      }
      LoadAllFirstWins(next, records[1..], k - 1);
    }
  }

  /** The field list `_dump` means to share, in the order `_load` reads it
      back: uid, colors, title, description, image. Reading it back gives
      the slide again, as a remote one. */
  function DumpFields(s: Slide): (fields: seq<Value>)
    ensures |fields| == 5 && FromRecord(fields) == s.(owner := false)
  {
    [s.uid, s.colors, s.title, s.desc, s.image]
  }

  /** Dump-then-load reproduces every field except `owner`, and only adds
      the slide when its uid is new. */
  lemma DumpLoadRoundTrip(slides: seq<Slide>, s: Slide)
    ensures !SlideSearch(slides, s.uid) ==> Load(slides, DumpFields(s)) == slides + [s.(owner := false)]
    ensures SlideSearch(slides, s.uid) ==> Load(slides, DumpFields(s)) == slides
  {
  }

  /** Python's `list.append`, which takes exactly one argument; any other
      number raises `TypeError`. */
  function ListAppend(list: seq<Value>, args: seq<Value>): (r: Result<seq<Value>>)
    ensures |args| == 1 <==> r.Ok?
    ensures r.Ok? ==> r.value == list + args
    ensures r.Err? ==> r.error == TypeError
  {
    if |args| == 1 then Ok(list + args) else Err(TypeError)
  }

  /** `_dump` as written: the five fields are passed to a single
      `list.append` call. */
  function DumpAsWritten(s: Slide): (r: Result<seq<Value>>)
    ensures r.Err? && r.error == TypeError
  {
    ListAppend([], [s.uid, s.colors, s.title, s.desc, s.image])
  }
}
