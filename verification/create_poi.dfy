/**
 * The administrator's "create a POI" form: a record of fields (some of them
 * nested records, the tags and amenities lists, the chosen image) that the
 * input handlers update one field at a time, and the multipart body the
 * form submits.
 *
 * Records keep their keys in insertion order, as JavaScript objects do for
 * non-numeric keys: an assignment to an existing key keeps its place, a new
 * key goes last.
 */
module CreatePoi {
  import opened Common
  import opened Lists
  import Pois

  /** The amenity check boxes the form offers. */
  const Amenities: seq<string> := ["wifi", "parking", "outdoor_seating", "wheelchair_accessible",
                                   "air_conditioning", "takeout", "delivery", "reservations"]

  const CategoriesLoadError: string := "Erreur lors du chargement des catégories"
  const DefaultCreateError: string := "Erreur lors de la création"
  const CreatedRedirect: string := "/Admin/PoIList"

  // ---------------------------------------------------------------------------
  // Records
  // ---------------------------------------------------------------------------

  /** One property of a record. */
  datatype Entry<V> = Entry(key: string, value: V)

  /** The values the form holds: text from the inputs, the initial numeric
      price level, nested records of text (address, contact, opening hours),
      the tags and amenities lists, the chosen file, and `null`/`undefined`. */
  datatype Value =
    | Undefined
    | Null
    | Str(s: string)
    | Num(n: int)
    | Obj(fields: seq<Entry<string>>)
    | Arr(items: seq<string>)
    | File(fileName: string)

  type Form = seq<Entry<Value>>

  function Keys<V>(es: seq<Entry<V>>): (r: seq<string>)
    ensures |r| == |es|
    ensures forall i :: 0 <= i < |es| ==> r[i] == es[i].key
  {
    if es == [] then [] else [es[0].key] + Keys(es[1..])
  }

  lemma {:induction false} KeysSnoc<V>(es: seq<Entry<V>>)
    requires es != []
    ensures Keys(es) == Keys(es[..|es| - 1]) + [es[|es| - 1].key]
  {
    if |es| > 1 {
      var init := es[..|es| - 1];
      assert es[1..][..|es| - 2] == init[1..];
      KeysSnoc(es[1..]);
      assert Keys(init) == [es[0].key] + Keys(init[1..]);
    }
  }

  predicate DistinctKeys<V>(es: seq<Entry<V>>) {
    forall i, j :: 0 <= i < j < |es| ==> es[i].key != es[j].key
  }

  /** `record[k]`, `None` for a missing key. */
  function Get<V>(es: seq<Entry<V>>, k: string): (r: Option<V>)
    ensures r.None? <==> k !in Keys(es)
  {
    if es == [] then None
    else if es[0].key == k then Some(es[0].value)
    else Get(es[1..], k)
  }

  /** A key that is found comes with its entry. */
  lemma {:induction false} GetFound<V>(es: seq<Entry<V>>, k: string)
    requires Get(es, k).Some?
    ensures exists i :: 0 <= i < |es| && es[i] == Entry(k, Get(es, k).value)
  {
    if es[0].key != k {
      GetFound(es[1..], k);
      var i :| 0 <= i < |es[1..]| && es[1..][i] == Entry(k, Get(es[1..], k).value);
      assert es[i + 1] == es[1..][i];
    }
  }

  /** With distinct keys, each entry is what its key reads. */
  lemma {:induction false} GetAt<V>(es: seq<Entry<V>>, i: nat)
    requires DistinctKeys(es) && i < |es|
    ensures Get(es, es[i].key) == Some(es[i].value)
  {
    if i > 0 {
      var rest := es[1..];
      assert DistinctKeys(rest) by {
        forall a, b | 0 <= a < b < |rest| ensures rest[a].key != rest[b].key {
          assert rest[a] == es[a + 1] && rest[b] == es[b + 1];
        }
      }
      GetAt(rest, i - 1);
      assert rest[i - 1] == es[i];
    }
  }

  /** `{ ...record, [k]: v }` */
  function Put<V>(es: seq<Entry<V>>, k: string, v: V): seq<Entry<V>> {
    if es == [] then [Entry(k, v)]
    else if es[0].key == k then [Entry(k, v)] + es[1..]
    else [es[0]] + Put(es[1..], k, v)
  }

  /** After `{ ...record, [k]: v }`, `k` holds `v` and every other key keeps
      its value. */
  lemma {:induction false} PutGet<V>(es: seq<Entry<V>>, k: string, v: V)
    ensures Get(Put(es, k, v), k) == Some(v)
    ensures forall k' :: k' != k ==> Get(Put(es, k, v), k') == Get(es, k')
  {
    if es != [] && es[0].key != k {
      PutGet(es[1..], k, v);
      assert Put(es, k, v)[1..] == Put(es[1..], k, v);
    } else if es != [] {
      assert Put(es, k, v)[1..] == es[1..];
    }
  }

  /** The keys keep their order; a new key goes last. */
  lemma {:induction false} PutKeys<V>(es: seq<Entry<V>>, k: string, v: V)
    ensures Keys(Put(es, k, v)) == (if k in Keys(es) then Keys(es) else Keys(es) + [k])
  {
    if es != [] {
      assert Keys(es) == [es[0].key] + Keys(es[1..]);
      if es[0].key != k {
        PutKeys(es[1..], k, v);
        assert Keys(Put(es, k, v)) == [es[0].key] + Keys(Put(es[1..], k, v));
      } else {
        assert Keys(Put(es, k, v)) == [k] + Keys(es[1..]);
      }
    }
  }

  /** Keys stay distinct. */
  lemma PutDistinct<V>(es: seq<Entry<V>>, k: string, v: V)
    requires DistinctKeys(es)
    ensures DistinctKeys(Put(es, k, v))
  {
    PutKeys(es, k, v);
    var r := Put(es, k, v);
    assert Keys(r) == (if k in Keys(es) then Keys(es) else Keys(es) + [k]);
    forall i, j | 0 <= i < j < |r|
      ensures r[i].key != r[j].key
    {
      assert Keys(r)[i] == r[i].key && Keys(r)[j] == r[j].key;
      if j < |es| {
        assert Keys(es)[i] == es[i].key && Keys(es)[j] == es[j].key;
      }
    }
  }

  /** Everything `Put` promises at once. */
  lemma PutSpec<V>(es: seq<Entry<V>>, k: string, v: V)
    ensures Get(Put(es, k, v), k) == Some(v)
    ensures forall k' :: k' != k ==> Get(Put(es, k, v), k') == Get(es, k')
    ensures Keys(Put(es, k, v)) == (if k in Keys(es) then Keys(es) else Keys(es) + [k])
    ensures DistinctKeys(es) ==> DistinctKeys(Put(es, k, v))
  {
    PutGet(es, k, v);
    PutKeys(es, k, v);
    if DistinctKeys(es) {
      PutDistinct(es, k, v);
    }
  }

  /** The names of the form's fields, in the order the page declares
      them. */
  const InitialKeys: seq<string> := ["name", "type", "latitude", "longitude", "address", "contact", "opening_hours",
                                     "description", "price_level", "tags", "amenities", "image"]

  /** Their first values, position by position. */
  const InitialValues: seq<Value> :=
    [Str(""), Str(""), Str(""), Str(""),
     Obj([Entry("street", ""), Entry("city", ""), Entry("postal_code", ""), Entry("region", ""), Entry("neighborhood", "")]),
     Obj([Entry("phone", ""), Entry("email", ""), Entry("website", "")]),
     Obj([Entry("monday", ""), Entry("tuesday", ""), Entry("wednesday", ""), Entry("thursday", ""),
          Entry("friday", ""), Entry("saturday", ""), Entry("sunday", "")]),
     Str(""), Num(1), Arr([]), Arr([]), Null]

  /** The record with keys `ks` holding `vs`. */
  function Zip(ks: seq<string>, vs: seq<Value>): (r: Form)
    requires |ks| == |vs|
    ensures |r| == |ks|
    ensures forall i :: 0 <= i < |ks| ==> r[i] == Entry(ks[i], vs[i])
  {
    seq(|ks|, i requires 0 <= i < |ks| => Entry(ks[i], vs[i]))
  }

  /** The form as the page first shows it. */
  function InitialForm(): Form {
    Zip(InitialKeys, InitialValues)
  }

  /** The first two characters and the length tell the field names apart. */
  function Signature(k: string): (int, char, char)
    requires |k| >= 2
  {
    (|k|, k[0], k[1])
  }

  lemma InitialKeysDistinct()
    ensures forall i, j :: 0 <= i < j < |InitialKeys| ==> InitialKeys[i] != InitialKeys[j]
  {
    var sigs := [(4, 'n', 'a'), (4, 't', 'y'), (8, 'l', 'a'), (9, 'l', 'o'), (7, 'a', 'd'), (7, 'c', 'o'),
                 (13, 'o', 'p'), (11, 'd', 'e'), (11, 'p', 'r'), (4, 't', 'a'), (9, 'a', 'm'), (5, 'i', 'm')];
    assert forall i :: 0 <= i < |InitialKeys| ==> |InitialKeys[i]| >= 2 && Signature(InitialKeys[i]) == sigs[i];
    assert forall i, j :: 0 <= i < j < |sigs| ==> sigs[i] != sigs[j];
  }

  /** A fresh form is well formed. */
  lemma InitialFormWellFormed()
    ensures WellFormed(InitialForm())
  {
    InitialFormShape();
  }

  /** A fresh form has the keys above, each once, the tags and amenities
      empty and no image. */
  lemma InitialFormShape()
    ensures WellFormed(InitialForm())
    ensures Keys(InitialForm()) == InitialKeys
    ensures Get(InitialForm(), "image") == Some(Null)
  {
    var f := InitialForm();
    assert Keys(f) == InitialKeys;
    InitialKeysDistinct();
    assert DistinctKeys(f) by {
      forall i, j | 0 <= i < j < |f| ensures f[i].key != f[j].key {
        assert f[i].key == InitialKeys[i] && f[j].key == InitialKeys[j];
      }
    }
    GetAt(f, 9);
    GetAt(f, 10);
    GetAt(f, 11);
  }

  /** JavaScript truthiness of a form value. */
  predicate TruthyValue(v: Value) {
    match v
    case Undefined => false
    case Null => false
    case Str(s) => s != ""
    case Num(n) => n != 0
    case _ => true
  }

  // ---------------------------------------------------------------------------
  // Input changes
  // ---------------------------------------------------------------------------

  /** The properties `{ ...v }` copies out of a value: a record's own, a
      string's characters or an array's items under their indices, nothing
      for anything else. */
  function Spread(v: Option<Value>): seq<Entry<string>> {
    if v.Some? && v.value.Obj? then v.value.fields
    else if v.Some? && v.value.Str? then
      var s := v.value.s;
      seq(|s|, i requires 0 <= i < |s| => Entry(NatToString(i), [s[i]]))
    else if v.Some? && v.value.Arr? then
      var items := v.value.items;
      seq(|items|, i requires 0 <= i < |items| => Entry(NatToString(i), items[i]))
    else []
  }

  /** The top-level key an input called `name` writes: the part before the
      first dot for `parent.child`, else the whole name. */
  function TouchedKey(name: string): string {
    if '.' in name then
      CountCharIn(name, '.');
      Split(name, '.')[0]
    else name
  }

  /** `handleInputChange`: `parent.child` sets `child` inside a copy of
      `parent`; any other name sets that field to the text. A name with more
      dots uses only its first two pieces. */
  function InputChange(form: Form, name: string, value: string): Form {
    if '.' in name then
      CountCharIn(name, '.');
      var parts := Split(name, '.');
      var parent := parts[0];
      Put(form, parent, Obj(Put(Spread(Get(form, parent)), parts[1], value)))
    else Put(form, name, Str(value))
  }

  /** An input change touches one top-level field and keeps the keys
      distinct. */
  lemma InputChangeKeeps(form: Form, name: string, value: string)
    ensures forall k :: k != TouchedKey(name) ==> Get(InputChange(form, name, value), k) == Get(form, k)
    ensures DistinctKeys(form) ==> DistinctKeys(InputChange(form, name, value))
  {
    if '.' in name {
      CountCharIn(name, '.');
      var parts := Split(name, '.');
      PutSpec(form, parts[0], Obj(Put(Spread(Get(form, parts[0])), parts[1], value)));
    } else {
      PutSpec(form, name, Str(value));
    }
  }

  /** An undotted name sets that field alone. */
  lemma PlainInputChange(form: Form, name: string, value: string)
    requires '.' !in name
    ensures Get(InputChange(form, name, value), name) == Some(Str(value))
    ensures forall k :: k != name ==> Get(InputChange(form, name, value), k) == Get(form, k)
    ensures Keys(InputChange(form, name, value)) == (if name in Keys(form) then Keys(form) else Keys(form) + [name])
  {
    PutSpec(form, name, Str(value));
  }

  /** `parent.child` sets `child` inside `parent` and nothing else: the
      other top-level fields keep their values, and when `parent` held a
      record its other children keep theirs, in their order. */
  lemma {:induction false} DottedInputChange(form: Form, parent: string, child: string, value: string,
                                              fields: seq<Entry<string>>)
    requires '.' !in parent && '.' !in child
    requires Get(form, parent) == Some(Obj(fields))
    ensures var r := InputChange(form, parent + "." + child, value);
      && Keys(r) == Keys(form)
      && (forall k :: k != parent ==> Get(r, k) == Get(form, k))
      && Get(r, parent).Some? && Get(r, parent).value.Obj?
      && Get(Get(r, parent).value.fields, child) == Some(value)
      && (forall c :: c != child ==> Get(Get(r, parent).value.fields, c) == Get(fields, c))
      && Keys(Get(r, parent).value.fields) == (if child in Keys(fields) then Keys(fields) else Keys(fields) + [child])
  {
    var name := parent + "." + child;
    assert name == parent + ['.'] + child;
    SplitAppend(parent, child, '.');
    SplitNoSep(child, '.');
    assert '.' in name by {
      assert name[|parent|] == '.';
    }
    assert Spread(Get(form, parent)) == fields;
    PutSpec(fields, child, value);
    PutSpec(form, parent, Obj(Put(fields, child, value)));
  }

  // ---------------------------------------------------------------------------
  // Place selection
  // ---------------------------------------------------------------------------

  /** A suggestion picked in the address search. */
  datatype PlaceChoice = PlaceChoice(
    displayName: Option<string>,
    addressDisplayName: Option<string>,
    name: Option<string>,
    latitude: Option<string>,
    lat: Option<string>,
    longitude: Option<string>,
    lon: Option<string>)

  function AsValue(s: Option<string>): Value {
    if s.Some? then Str(s.value) else Undefined
  }

  /** The fields a place selection writes, in the order it writes them. */
  function PlaceFields(form: Form, place: PlaceChoice, name: Value): Form {
    var withAddress := Put(form, "address", AsValue(OrOpt(OrOpt(place.displayName, place.addressDisplayName), place.name)));
    var withLatitude := Put(withAddress, "latitude", AsValue(OrOpt(place.latitude, place.lat)));
    var withLongitude := Put(withLatitude, "longitude", AsValue(OrOpt(place.longitude, place.lon)));
    Put(withLongitude, "name", name)
  }

  /** The four fields get their new values; no other field changes and the
      keys stay distinct. */
  lemma PlaceFieldsSpec(form: Form, place: PlaceChoice, name: Value)
    ensures var r := PlaceFields(form, place, name);
      && Get(r, "name") == Some(name)
      && Get(r, "address") == Some(AsValue(OrOpt(OrOpt(place.displayName, place.addressDisplayName), place.name)))
      && Get(r, "latitude") == Some(AsValue(OrOpt(place.latitude, place.lat)))
      && Get(r, "longitude") == Some(AsValue(OrOpt(place.longitude, place.lon)))
      && (forall k :: k != "name" && k != "address" && k != "latitude" && k != "longitude" ==> Get(r, k) == Get(form, k))
      && (DistinctKeys(form) ==> DistinctKeys(r))
  {
    var withAddress := Put(form, "address", AsValue(OrOpt(OrOpt(place.displayName, place.addressDisplayName), place.name)));
    var withLatitude := Put(withAddress, "latitude", AsValue(OrOpt(place.latitude, place.lat)));
    var withLongitude := Put(withLatitude, "longitude", AsValue(OrOpt(place.longitude, place.lon)));
    PutSpec(form, "address", AsValue(OrOpt(OrOpt(place.displayName, place.addressDisplayName), place.name)));
    PutSpec(withAddress, "latitude", AsValue(OrOpt(place.latitude, place.lat)));
    PutSpec(withLatitude, "longitude", AsValue(OrOpt(place.longitude, place.lon)));
    PutSpec(withLongitude, "name", name);
  }

  /** A truthy form value under `k`. */
  predicate Filled(form: Form, k: string) {
    Get(form, k).Some? && TruthyValue(Get(form, k).value)
  }

  /** `handlePlaceSelect`: the address becomes the place's display name (or
      its address's, or its name), the coordinates come from `latitude`/
      `longitude` or else `lat`/`lon`, and an empty name is filled with the
      part of the place's name before its first comma. `None` when the name
      is needed and the place has none, where `split` throws. */
  function PlaceSelect(form: Form, place: PlaceChoice): (r: Option<Form>)
    ensures r.None? <==> !Filled(form, "name") && place.name.None?
  {
    if !Filled(form, "name") && place.name.None? then None
    else
      var name := if Filled(form, "name") then Get(form, "name").value else Str(Split(place.name.value, ',')[0]);
      Some(PlaceFields(form, place, name))
  }

  /** What a place selection changes: a truthy name is kept, an empty one
      becomes a comma-free prefix of the place's name; `latitude` wins over
      `lat` when truthy, and `longitude` over `lon`; no other field
      changes. */
  lemma PlaceSelectSpec(form: Form, place: PlaceChoice)
    requires PlaceSelect(form, place).Some?
    ensures var r := PlaceSelect(form, place).value;
      && (Filled(form, "name") ==> Get(r, "name") == Get(form, "name"))
      && (!Filled(form, "name") ==>
            Get(r, "name").Some? && Get(r, "name").value.Str?
            && ',' !in Get(r, "name").value.s && Get(r, "name").value.s <= place.name.value)
      && (Truthy(place.latitude) ==> Get(r, "latitude") == Some(Str(place.latitude.value)))
      && (!Truthy(place.latitude) ==> Get(r, "latitude") == Some(AsValue(place.lat)))
      && (Truthy(place.longitude) ==> Get(r, "longitude") == Some(Str(place.longitude.value)))
      && (!Truthy(place.longitude) ==> Get(r, "longitude") == Some(AsValue(place.lon)))
      && (forall k :: k != "name" && k != "address" && k != "latitude" && k != "longitude" ==> Get(r, k) == Get(form, k))
      && (DistinctKeys(form) ==> DistinctKeys(r))
  {
    var name := if Filled(form, "name") then Get(form, "name").value else Str(Split(place.name.value, ',')[0]);
    if !Filled(form, "name") {
      SplitPrefix(place.name.value, ',');
    }
    PlaceFieldsSpec(form, place, name);
  }

  /** The first piece of a split is a prefix of the text. */
  lemma {:induction false} SplitPrefix(s: string, sep: char)
    ensures Split(s, sep)[0] <= s
  {
    if s != [] {
      SplitPrefix(s[1..], sep);
    }
  }

  // ---------------------------------------------------------------------------
  // Amenities and tags
  // ---------------------------------------------------------------------------

  /** `handleAmenityChange`: a listed amenity is removed (every copy of it),
      an unlisted one is appended. */
  function ToggleAmenity(items: seq<string>, amenity: string): (r: seq<string>)
    ensures amenity in r <==> amenity !in items
    ensures forall x :: x != amenity ==> (x in r <==> x in items)
  {
    if amenity in items then
      FilterSpec(items, (a: string) => a != amenity);
      Filter(items, (a: string) => a != amenity)
    else items + [amenity]
  }

  /** Toggling twice gives back the same amenities; the very same list when
      the amenity was not listed (when it was, it moves to the end). */
  lemma ToggleTwice(items: seq<string>, amenity: string)
    ensures forall x :: x in ToggleAmenity(ToggleAmenity(items, amenity), amenity) <==> x in items
    ensures amenity !in items ==> ToggleAmenity(ToggleAmenity(items, amenity), amenity) == items
  {
    if amenity !in items {
      var keep := (a: string) => a != amenity;
      FilterAppend(items, [amenity], keep);
      FilterAll(items, keep);
      assert Filter([amenity], keep) == [];
    }
  }

  predicate NonEmpty(t: string) {
    t != ""
  }

  /** No whitespace at either end. */
  predicate Trimmed(t: string) {
    t == [] || (!IsSpace(t[0]) && !IsSpace(t[|t| - 1]))
  }

  /** `text.split(',').map(t => t.trim()).filter(t => t)` */
  function Tags(text: string): (r: seq<string>)
    ensures forall i :: 0 <= i < |r| ==> NonEmpty(r[i]) && Trimmed(r[i])
    ensures |r| <= CountChar(text, ',') + 1
  {
    var pieces := Map(Split(text, ','), Trim);
    FilterKeeps(pieces, NonEmpty, Trimmed);
    Filter(pieces, NonEmpty)
  }

  /** A tag as the form keeps it: not empty, no comma, no surrounding
      whitespace. */
  predicate CleanTag(t: string) {
    t != "" && ',' !in t && !IsSpace(t[0]) && !IsSpace(t[|t| - 1])
  }

  /** A clean tag survives trimming, alone or after the space of `', '`. */
  lemma TrimCleanTag(t: string)
    requires CleanTag(t)
    ensures Trim(t) == t && Trim(" " + t) == t
  {
    TrimUnpadded(t);
    TrimAfterSpace(t);
  }

  lemma TrimPiece(piece: string, t: string)
    requires CleanTag(t) && (piece == t || piece == " " + t)
    ensures Trim(piece) == t
  {
    TrimCleanTag(t);
  }

  /** The pieces of `tags.join(', ')` are the tags, all but the first
      after a space. */
  lemma PiecesOfJoin(tags: seq<string>)
    requires |tags| >= 1
    requires forall i :: 0 <= i < |tags| ==> CleanTag(tags[i])
    ensures var pieces := Split(Join(tags, ", "), ',');
      |pieces| == |tags| && forall k :: 0 <= k < |tags| ==> pieces[k] == tags[k] || pieces[k] == " " + tags[k]
  {
    var text := Join(tags, ", ");
    assert [] + text == text;
    assert forall i :: 0 <= i < |tags| ==> ',' !in tags[i];
    JoinedPieces([], tags);
    assert [] + tags[0] == tags[0];
  }

  /** The pieces of `tags.join(', ')`, trimmed, are the tags. */
  lemma TrimmedPieces(tags: seq<string>)
    requires |tags| >= 1
    requires forall i :: 0 <= i < |tags| ==> CleanTag(tags[i])
    ensures Map(Split(Join(tags, ", "), ','), Trim) == tags
  {
    var pieces := Split(Join(tags, ", "), ',');
    PiecesOfJoin(tags);
    var m := Map(pieces, Trim);
    forall k | 0 <= k < |tags|
      ensures m[k] == tags[k]
    {
      TrimPiece(pieces[k], tags[k]);
    }
  }

  /** The tags input shows `tags.join(', ')`; reading that text back gives
      the same tags, so editing elsewhere in the text never disturbs the
      others. */
  lemma TagsRoundTrip(tags: seq<string>)
    requires forall i :: 0 <= i < |tags| ==> CleanTag(tags[i])
    ensures Tags(Join(tags, ", ")) == tags
  {
    if tags == [] {
      assert Split([], ',') == [[]];
      assert Map([[]], Trim) == [[]];
      assert Filter([[]], NonEmpty) == [];
    } else {
      TrimmedPieces(tags);
      FilterAll(tags, NonEmpty);
    }
  }

  /** Splitting `pre + tags.join(', ')` on commas: the first piece carries
      `pre`, every later one the space after its comma. */
  lemma {:induction false} JoinedPieces(pre: string, tags: seq<string>)
    requires |tags| >= 1
    requires ',' !in pre
    requires forall i :: 0 <= i < |tags| ==> ',' !in tags[i]
    ensures var pieces := Split(pre + Join(tags, ", "), ',');
      && |pieces| == |tags|
      && pieces[0] == pre + tags[0]
      && forall k :: 1 <= k < |tags| ==> pieces[k] == " " + tags[k]
    decreases |tags|
  {
    if |tags| == 1 {
      assert ',' !in pre + tags[0];
      SplitNoSep(pre + tags[0], ',');
    } else {
      var rest := tags[1..];
      assert Join(tags, ", ") == tags[0] + ", " + Join(rest, ", ");
      assert pre + Join(tags, ", ") == (pre + tags[0]) + [','] + (" " + Join(rest, ", "));
      assert ',' !in pre + tags[0];
      SplitAppend(pre + tags[0], " " + Join(rest, ", "), ',');
      JoinedPieces(" ", rest);
    }
  }

  // ---------------------------------------------------------------------------
  // Submission
  // ---------------------------------------------------------------------------

  function HexDigit(d: nat): char
    requires d < 16
  {
    if d < 10 then ('0' as int + d) as char else ('a' as int + d - 10) as char
  }

  predicate IsHexDigit(c: char) {
    ('0' <= c <= '9') || ('a' <= c <= 'f')
  }

  function HexValue(c: char): nat
    requires IsHexDigit(c)
  {
    if '0' <= c <= '9' then c as int - '0' as int else c as int - 'a' as int + 10
  }

  /** How `JSON.stringify` writes one character inside a string literal. */
  function EscapeChar(c: char): string {
    if c == '"' then ['\\', '"']
    else if c == '\\' then ['\\', '\\']
    else if c == '\U{8}' then ['\\', 'b']
    else if c == '\U{C}' then ['\\', 'f']
    else if c == '\n' then ['\\', 'n']
    else if c == '\r' then ['\\', 'r']
    else if c == '\t' then ['\\', 't']
    else if (c as int) < 0x20 then ['\\', 'u', '0', '0', HexDigit(c as int / 16), HexDigit(c as int % 16)]
    else [c]
  }

  function Escape(s: string): string {
    if s == [] then [] else EscapeChar(s[0]) + Escape(s[1..])
  }

  /** `JSON.stringify(s)` for a string. */
  function JsonString(s: string): string {
    "\"" + Escape(s) + "\""
  }

  /** The character a two-character escape `\x` stands for. */
  function ShortEscape(x: char): char {
    if x == 'b' then '\U{8}'
    else if x == 'f' then '\U{C}'
    else if x == 'n' then '\n'
    else if x == 'r' then '\r'
    else if x == 't' then '\t'
    else x
  }

  /** Reads escaped string contents back, for the escapes `Escape` writes. */
  function Unescape(t: string): string {
    if t == [] then []
    else if t[0] == '\\' && |t| >= 6 && t[1] == 'u' && t[2] == '0' && t[3] == '0'
         && IsHexDigit(t[4]) && IsHexDigit(t[5]) then
      [(16 * HexValue(t[4]) + HexValue(t[5])) as char] + Unescape(t[6..])
    else if t[0] == '\\' && |t| >= 2 then [ShortEscape(t[1])] + Unescape(t[2..])
    else [t[0]] + Unescape(t[1..])
  }

  lemma UnescapeChar(c: char, rest: string)
    ensures Unescape(EscapeChar(c) + rest) == [c] + Unescape(rest)
  {
    var t := EscapeChar(c) + rest;
    if |EscapeChar(c)| == 6 {
      UnescapeControl(c, rest);
    } else if |EscapeChar(c)| == 2 {
      assert t[2..] == rest;
    } else {
      assert t[1..] == rest;
    }
  }

  lemma HexDigitValue(d: nat)
    requires d < 16
    ensures IsHexDigit(HexDigit(d)) && HexValue(HexDigit(d)) == d
  {
  }

  /** A control character without a short escape reads back from its
      six-character `\u00XX` form. */
  lemma UnescapeControl(c: char, rest: string)
    requires |EscapeChar(c)| == 6
    ensures Unescape(EscapeChar(c) + rest) == [c] + Unescape(rest)
  {
    var n := c as int;
    assert n < 0x20;
    HexDigitValue(n / 16);
    HexDigitValue(n % 16);
    var t := EscapeChar(c) + rest;
    assert t[..6] == ['\\', 'u', '0', '0', HexDigit(n / 16), HexDigit(n % 16)];
    assert t[6..] == rest;
  }

  /** Escaping loses nothing: the original text can be read back. */
  lemma {:induction false} EscapeRoundTrip(s: string)
    ensures Unescape(Escape(s)) == s
  {
    if s != [] {
      EscapeRoundTrip(s[1..]);
      UnescapeChar(s[0], Escape(s[1..]));
    }
  }

  /** What `formData.append(key, ...)` receives for a field other than the
      image: records, arrays, `null` and files JSON-encoded, text as is,
      numbers and `undefined` as their string forms. */
  function FieldText(v: Value): string {
    match v
    case Undefined => "undefined"
    case Null => "null"
    case Str(s) => s
    case Num(n) => IntToString(n)
    case Obj(fields) =>
      "{" + Join(Map(fields, (e: Entry<string>) => JsonString(e.key) + ":" + JsonString(e.value)), ",") + "}"
    case Arr(items) => "[" + Join(Map(items, JsonString), ",") + "]"
    case File(_) => "{}"
  }

  /** One part of the multipart body. */
  datatype Part = TextPart(name: string, text: string) | FilePart(name: string, fileName: string)

  function PartName(p: Part): string {
    p.name
  }

  /** `formData.append("image", image)` for a truthy image: a file as a
      file, anything else as its string form. */
  function ImagePart(v: Value): (r: Part)
    ensures r.name == "image"
    ensures r.FilePart? <==> v.File?
  {
    match v
    case File(f) => FilePart("image", f)
    case Str(s) => TextPart("image", s)
    case Num(n) => TextPart("image", IntToString(n))
    case Obj(_) => TextPart("image", "[object Object]")
    case Arr(items) => TextPart("image", Join(items, ","))
    case _ => TextPart("image", "")
  }

  /** What the loop over the form's keys appends for one field. */
  function PartOf(e: Entry<Value>): seq<Part> {
    if e.key == "image" then [] else [TextPart(e.key, FieldText(e.value))]
  }

  /** The loop over the form's keys, skipping `image`. */
  function FieldParts(form: Form): seq<Part> {
    if form == [] then [] else FieldParts(form[..|form| - 1]) + PartOf(form[|form| - 1])
  }

  /** The body `handleSubmit` posts. */
  function Submission(form: Form): seq<Part> {
    FieldParts(form) + (if ImageSent(form) then [ImagePart(Get(form, "image").value)] else [])
  }

  /** `if (formData.image)` */
  predicate ImageSent(form: Form) {
    Get(form, "image").Some? && TruthyValue(Get(form, "image").value)
  }

  predicate NotImage(k: string) {
    k != "image"
  }

  /** The loop sends the keys other than `image`, in order. */
  lemma {:induction false} FieldPartNames(form: Form)
    ensures Map(FieldParts(form), PartName) == Filter(Keys(form), NotImage)
  {
    if form != [] {
      FieldPartNames(form[..|form| - 1]);
      PartNamesSnoc(form);
      KeptKeysSnoc(form);
    }
  }

  /** The names the loop sends for a form are those for all but its last
      field, then that field's unless it is the image. */
  lemma PartNamesSnoc(form: Form)
    requires form != []
    ensures var last := form[|form| - 1];
      Map(FieldParts(form), PartName)
      == Map(FieldParts(form[..|form| - 1]), PartName) + (if NotImage(last.key) then [last.key] else [])
  {
    var init, last := form[..|form| - 1], form[|form| - 1];
    MapAppend(FieldParts(init), PartOf(last), PartName);
    assert Map(PartOf(last), PartName) == (if NotImage(last.key) then [last.key] else []);
  }

  /** The same for the keys other than the image. */
  lemma KeptKeysSnoc(form: Form)
    requires form != []
    ensures var last := form[|form| - 1];
      Filter(Keys(form), NotImage)
      == Filter(Keys(form[..|form| - 1]), NotImage) + (if NotImage(last.key) then [last.key] else [])
  {
    var init, last := form[..|form| - 1], form[|form| - 1];
    var ks := Keys(init);
    KeysSnoc(form);
    FilterAppend(ks, [last.key], NotImage);
    var named: seq<string> := if NotImage(last.key) then [last.key] else [];
    assert Filter([last.key], NotImage) == named by {
      assert [last.key][1..] == [];
    }
  }

  /** The part is the text of one of the form's fields. */
  predicate SentFrom(p: Part, form: Form) {
    exists j :: 0 <= j < |form| && p == TextPart(form[j].key, FieldText(form[j].value))
  }

  /** Each part the loop sends is the text of one field. */
  lemma {:induction false} FieldPartSources(form: Form)
    ensures forall i :: 0 <= i < |FieldParts(form)| ==> SentFrom(FieldParts(form)[i], form)
  {
    if form != [] {
      var init, last := form[..|form| - 1], form[|form| - 1];
      FieldPartSources(init);
      var parts := FieldParts(form);
      assert parts == FieldParts(init) + PartOf(last);
      forall i | 0 <= i < |parts|
        ensures SentFrom(parts[i], form)
      {
        if i < |FieldParts(init)| {
          assert SentFrom(FieldParts(init)[i], init);
          var j :| 0 <= j < |init| && FieldParts(init)[i] == TextPart(init[j].key, FieldText(init[j].value));
          assert form[j] == init[j];
        } else {
          assert parts[i] == TextPart(form[|form| - 1].key, FieldText(form[|form| - 1].value));
        }
      }
    }
  }

  /** With distinct keys, each part the loop sends carries the text of the
      value under its name. */
  lemma FieldPartTexts(form: Form)
    requires DistinctKeys(form)
    ensures forall i :: 0 <= i < |FieldParts(form)| ==>
      FieldParts(form)[i].TextPart? && Get(form, FieldParts(form)[i].name).Some?
      && FieldParts(form)[i].text == FieldText(Get(form, FieldParts(form)[i].name).value)
  {
    FieldPartSources(form);
    forall i | 0 <= i < |FieldParts(form)|
      ensures FieldParts(form)[i].TextPart? && Get(form, FieldParts(form)[i].name).Some?
        && FieldParts(form)[i].text == FieldText(Get(form, FieldParts(form)[i].name).value)
    {
      assert SentFrom(FieldParts(form)[i], form);
      var j :| 0 <= j < |form| && FieldParts(form)[i] == TextPart(form[j].key, FieldText(form[j].value));
      GetAt(form, j);
    }
  }

  /** Every field but the image is sent once, in the form's order, with the
      text of its value; the image is sent, last, exactly when it is
      truthy. */
  lemma SubmissionSpec(form: Form)
    requires DistinctKeys(form)
    ensures Map(Submission(form), PartName) == Filter(Keys(form), NotImage) + (if ImageSent(form) then ["image"] else [])
    ensures forall i :: 0 <= i < |FieldParts(form)| ==>
      Submission(form)[i].TextPart? && Get(form, Submission(form)[i].name).Some?
      && Submission(form)[i].text == FieldText(Get(form, Submission(form)[i].name).value)
  {
    SubmissionNames(form);
    FieldPartTexts(form);
    forall i | 0 <= i < |FieldParts(form)|
      ensures Submission(form)[i] == FieldParts(form)[i]
    {
    }
  }

  /** The names posted: the fields but the image, then the image when sent. */
  lemma SubmissionNames(form: Form)
    requires DistinctKeys(form)
    ensures Map(Submission(form), PartName) == Filter(Keys(form), NotImage) + (if ImageSent(form) then ["image"] else [])
  {
    FieldPartNames(form);
    if ImageSent(form) {
      var part := ImagePart(Get(form, "image").value);
      assert PartName(part) == "image";
      MapAppend(FieldParts(form), [part], PartName);
      assert Map([part], PartName) == ["image"];
    } else {
      assert Submission(form) == FieldParts(form) + [];
    }
  }

  // ---------------------------------------------------------------------------
  // The page
  // ---------------------------------------------------------------------------

  /** What the creation request came back with. */
  datatype CreateOutcome =
    | Created
    | Refused(message: Option<string>)
    | Unreachable(errorMessage: string)

  /** The shapes the handlers rely on: distinct keys, the tags and the
      amenities lists, and an image that is either none or a file. */
  predicate WellFormed(form: Form) {
    && DistinctKeys(form)
    && Get(form, "tags").Some? && Get(form, "tags").value.Arr?
    && Get(form, "amenities").Some? && Get(form, "amenities").value.Arr?
    && Get(form, "image").Some? && (Get(form, "image").value.Null? || Get(form, "image").value.File?)
  }

  /** The keys the image, tags and amenities handlers own. */
  predicate Owned(k: string) {
    k == "tags" || k == "amenities" || k == "image"
  }

  class PoiForm {
    var data: Form
    var categories: seq<Pois.Category>
    var loadingCategories: bool

    predicate Valid()
      reads this
    {
      WellFormed(data)
    }

    constructor()
      ensures data == InitialForm()
      ensures Valid()
      ensures categories == []
      ensures loadingCategories
    {
      InitialFormWellFormed();
      data := InitialForm();
      categories := [];
      loadingCategories := true;
    }

    /** `loadCategories()`: `data.categories || []`, or an alert. */
    method LoadCategories(result: Fetched<Option<seq<Pois.Category>>>) returns (alert: Option<string>)
      modifies this
      ensures data == old(data) && !loadingCategories
      ensures result.Received? ==>
        categories == (if result.data.Some? then result.data.value else []) && alert == None
      ensures result.Failed? ==> categories == old(categories) && alert == Some(CategoriesLoadError)
    {
      alert := None;
      if result.Received? {
        categories := if result.data.Some? then result.data.value else [];
      } else {
        alert := Some(CategoriesLoadError);
      }
      loadingCategories := false;
    }

    /** The change handler of a text input, select or text area; the page
        wires it to no input owned by another handler. */
    method HandleInputChange(name: string, value: string)
      requires Valid() && !Owned(TouchedKey(name))
      modifies this
      ensures data == InputChange(old(data), name, value)
      ensures forall k :: k != TouchedKey(name) ==> Get(data, k) == Get(old(data), k)
      ensures Valid()
    {
      InputChangeKeeps(data, name, value);
      data := InputChange(data, name, value);
    }

    /** `handlePlaceSelect`; `ok` is false where it throws, and then nothing
        changes. */
    method HandlePlaceSelect(place: PlaceChoice) returns (ok: bool)
      requires Valid()
      modifies this
      ensures ok == PlaceSelect(old(data), place).Some?
      ensures data == (if ok then PlaceSelect(old(data), place).value else old(data))
      ensures Valid()
    {
      var r := PlaceSelect(data, place);
      ok := r.Some?;
      if ok {
        PlaceSelectSpec(data, place);
        data := r.value;
      }
    }

    method HandleAmenityChange(amenity: string)
      requires Valid()
      modifies this
      ensures data == Put(old(data), "amenities", Arr(ToggleAmenity(Get(old(data), "amenities").value.items, amenity)))
      ensures Valid()
    {
      PutSpec(data, "amenities", Arr(ToggleAmenity(Get(data, "amenities").value.items, amenity)));
      data := Put(data, "amenities", Arr(ToggleAmenity(Get(data, "amenities").value.items, amenity)));
    }

    method HandleTagsChange(text: string)
      requires Valid()
      modifies this
      ensures data == Put(old(data), "tags", Arr(Tags(text)))
      ensures Valid()
    {
      PutSpec(data, "tags", Arr(Tags(text)));
      data := Put(data, "tags", Arr(Tags(text)));
    }

    /** `handleImageChange`: the first chosen file, if any, becomes the
        image. */
    method HandleImageChange(file: Option<string>)
      requires Valid()
      modifies this
      ensures data == (if file.Some? then Put(old(data), "image", File(file.value)) else old(data))
      ensures Valid()
    {
      if file.Some? {
        PutSpec(data, "image", File(file.value));
        data := Put(data, "image", File(file.value));
      }
    }

    /** `handleSubmit`: the body sent, then the redirect on success or the
        alert on failure. */
    method Submit(outcome: CreateOutcome) returns (body: seq<Part>, redirect: Option<string>, alert: Option<string>)
      ensures body == Submission(data)
      ensures outcome.Created? ==> redirect == Some(CreatedRedirect) && alert == None
      ensures outcome.Refused? ==>
        redirect == None && alert == Some("Erreur lors de la création du POI: " + OrElse(outcome.message, DefaultCreateError))
      ensures outcome.Unreachable? ==>
        redirect == None && alert == Some("Erreur lors de la création du POI: " + outcome.errorMessage)
    {
      body := [];
      var i := 0;
      while i < |data|
        invariant 0 <= i <= |data|
        invariant body == FieldParts(data[..i])
      {
        assert data[..i + 1][..i] == data[..i];
        if data[i].key != "image" {
          body := body + [TextPart(data[i].key, FieldText(data[i].value))];
        }
        i := i + 1;
      }
      assert data[..i] == data;
      var image := Get(data, "image");
      if image.Some? && TruthyValue(image.value) {
        body := body + [ImagePart(image.value)];
      }
      match outcome
      case Created =>
        redirect, alert := Some(CreatedRedirect), None;
      case Refused(message) =>
        redirect, alert := None, Some("Erreur lors de la création du POI: " + OrElse(message, DefaultCreateError));
      case Unreachable(errorMessage) =>
        redirect, alert := None, Some("Erreur lors de la création du POI: " + errorMessage);
    }
  }

  /** Keys whose last, and only last, is the image filter to all the others. */
  lemma FilterImageLast(ks: seq<string>)
    requires ks != [] && ks[|ks| - 1] == "image"
    requires forall i :: 0 <= i < |ks| - 1 ==> ks[i] != ks[|ks| - 1]
    ensures Filter(ks, NotImage) == ks[..|ks| - 1]
  {
    var init := ks[..|ks| - 1];
    assert ks == init + ["image"];
    FilterAppend(init, ["image"], NotImage);
    assert forall i :: 0 <= i < |init| ==> NotImage(init[i]);
    FilterAll(init, NotImage);
    assert Filter(["image"], NotImage) == [];
  }

  lemma InitialFieldNames()
    ensures Filter(InitialKeys, NotImage) == InitialKeys[..11]
  {
    InitialKeysDistinct();
    FilterImageLast(InitialKeys);
  }

  /** A fresh form sends every field but the image, once each. */
  lemma InitialSubmission()
    ensures Map(Submission(InitialForm()), PartName) == InitialKeys[..11]
  {
    InitialFormShape();
    SubmissionWithoutImage(InitialForm());
    InitialFieldNames();
  }

  /** A form whose image is `null` sends exactly its other fields. */
  lemma SubmissionWithoutImage(form: Form)
    requires DistinctKeys(form) && Get(form, "image") == Some(Null)
    ensures Map(Submission(form), PartName) == Filter(Keys(form), NotImage)
  {
    assert !ImageSent(form);
    SubmissionSpec(form);
  }
}
