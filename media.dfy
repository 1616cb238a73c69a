/**
 * The shared entry type `SelectedItem` and its `Parcelable` serialisation.
 *
 * A Parcel is modelled as a sequence of typed slots with one data position:
 * a write stores a slot at the position (overwriting or growing) and advances
 * it, a read returns the slot at the position and advances it. Reading past
 * the end, or reading a slot of the other kind, gives null.
 */
module Media {
  import opened Wrappers

  /** An Android content URI, kept as its string form. */
  datatype Uri = Uri(text: string)

  /** One shareable entry: where it lives, the name shown, and its MIME type. */
  datatype SelectedItem = SelectedItem(uri: Uri, name: string, mime: string) {

    /** `writeToParcel`: the URI, then the name, then the MIME type. */
    method WriteToParcel(parcel: Parcel, flags: int)
      requires parcel.Valid()
      modifies parcel
      ensures parcel.Valid()
      ensures parcel.data == PutAll(old(parcel.data), old(parcel.position), Encode(this))
      ensures parcel.position == old(parcel.position) + 3
    {
      ghost var d0, p0 := parcel.data, parcel.position;
      parcel.WriteParcelable(uri);
      parcel.WriteString(Some(name));
      parcel.WriteString(Some(mime));
      PutThree(d0, p0, ParcelableValue(Some(uri)), StringValue(Some(name)), StringValue(Some(mime)));
    }
  }

  /** `describeContents()`: the item holds no file descriptors. */
  const DESCRIBE_CONTENTS: int := 0

  /** One slot of a Parcel: a parcelable URI or a string, either possibly null. */
  datatype ParcelValue = ParcelableValue(uri: Option<Uri>) | StringValue(str: Option<string>)

  /** The `!!` on a null URI in the Parcel constructor throws. */
  datatype ParcelError = NullUri

  /** The slots `writeToParcel` stores, in order. */
  function Encode(item: SelectedItem): seq<ParcelValue> {
    [ParcelableValue(Some(item.uri)), StringValue(Some(item.name)), StringValue(Some(item.mime))]
  }

  /** Storing one slot at position `p` (overwriting, or appending at the end). */
  function Put(data: seq<ParcelValue>, p: nat, v: ParcelValue): (r: seq<ParcelValue>)
    requires p <= |data|
    ensures |r| == if p < |data| then |data| else |data| + 1
    ensures r[p] == v
    ensures forall i :: 0 <= i < |data| && i != p ==> r[i] == data[i]
  {
    if p < |data| then data[p := v] else data + [v]
  }

  /** Storing consecutive slots from position `p`. */
  function PutAll(data: seq<ParcelValue>, p: nat, vs: seq<ParcelValue>): (r: seq<ParcelValue>)
    requires p <= |data|
    ensures |r| >= p + |vs|
    decreases |vs|
  {
    if vs == [] then data else PutAll(Put(data, p, vs[0]), p + 1, vs[1..])
  }

  /** What `readParcelable` returns at position `p`. */
  function UriAt(data: seq<ParcelValue>, p: nat): Option<Uri> {
    if p < |data| && data[p].ParcelableValue? then data[p].uri else None
  }

  /** What `readString` returns at position `p`. */
  function StringAt(data: seq<ParcelValue>, p: nat): Option<string> {
    if p < |data| && data[p].StringValue? then data[p].str else None
  }

  /** The Parcel constructor of `SelectedItem` reading from position `p`. */
  function Decode(data: seq<ParcelValue>, p: nat): Result<SelectedItem, ParcelError> {
    match UriAt(data, p)
    case None => Failure(NullUri)
    case Some(u) => Success(SelectedItem(u, StringAt(data, p + 1).GetOr(""), StringAt(data, p + 2).GetOr("")))
  }

  /** Reading back from where an item was written gives that item, whatever else the parcel holds. */
  lemma ParcelRoundTrip(data: seq<ParcelValue>, p: nat, item: SelectedItem)
    requires p <= |data|
    ensures Decode(PutAll(data, p, Encode(item)), p) == Success(item)
  {
    var e := Encode(item);
    PutThree(data, p, e[0], e[1], e[2]);
    assert e == [e[0], e[1], e[2]];
  }

  /** Storing three slots is storing them one after the other. */
  lemma PutThree(data: seq<ParcelValue>, p: nat, a: ParcelValue, b: ParcelValue, c: ParcelValue)
    requires p <= |data|
    ensures PutAll(data, p, [a, b, c]) == Put(Put(Put(data, p, a), p + 1, b), p + 2, c)
  {
    var d1 := Put(data, p, a);
    var d2 := Put(d1, p + 1, b);
    var d3 := Put(d2, p + 2, c);
    assert [a, b, c][1..] == [b, c];
    assert [b, c][1..] == [c];
    assert [c][1..] == [];
    calc {
      PutAll(data, p, [a, b, c]);
      PutAll(d1, p + 1, [b, c]);
      PutAll(d2, p + 2, [c]);
      PutAll(d3, p + 3, []);
    }
  }

  /** A null name or MIME type reads back as the empty string; a null URI fails the `!!`. */
  lemma DecodeNulls(data: seq<ParcelValue>, p: nat, u: Uri)
    requires UriAt(data, p) == Some(u)
    requires StringAt(data, p + 1) == None && StringAt(data, p + 2) == None
    ensures Decode(data, p) == Success(SelectedItem(u, "", ""))
  {
  }

  /** `newArray(n)`: an array of `n` nulls. */
  function NewArray(n: nat): (r: seq<Option<SelectedItem>>)
    ensures |r| == n && forall i :: 0 <= i < n ==> r[i] == None
  {
    seq(n, _ => None)
  }

  class Parcel {
    var data: seq<ParcelValue>
    var position: nat

    ghost predicate Valid()
      reads this
    {
      position <= |data|
    }

    /** `Parcel.obtain()`: an empty parcel. */
    constructor ()
      ensures Valid() && data == [] && position == 0
    {
      data := [];
      position := 0;
    }

    method SetDataPosition(p: nat)
      requires p <= |data|
      modifies this
      ensures Valid() && data == old(data) && position == p
    {
      position := p;
    }

    method WriteParcelable(u: Uri)
      requires Valid()
      modifies this
      ensures Valid()
      ensures data == Put(old(data), old(position), ParcelableValue(Some(u)))
      ensures position == old(position) + 1
    {
      data := Put(data, position, ParcelableValue(Some(u)));
      position := position + 1;
    }

    method WriteString(s: Option<string>)
      requires Valid()
      modifies this
      ensures Valid()
      ensures data == Put(old(data), old(position), StringValue(s))
      ensures position == old(position) + 1
    {
      data := Put(data, position, StringValue(s));
      position := position + 1;
    }

    method ReadParcelable() returns (u: Option<Uri>)
      requires Valid()
      modifies this
      ensures Valid() && data == old(data)
      ensures u == UriAt(data, old(position))
      ensures position == if old(position) < |data| then old(position) + 1 else old(position)
    {
      u := UriAt(data, position);
      if position < |data| {
        position := position + 1;
      }
    }

    method ReadString() returns (s: Option<string>)
      requires Valid()
      modifies this
      ensures Valid() && data == old(data)
      ensures s == StringAt(data, old(position))
      ensures position == if old(position) < |data| then old(position) + 1 else old(position)
    {
      s := StringAt(data, position);
      if position < |data| {
        position := position + 1;
      }
    }
  }

  /** `CREATOR.createFromParcel`: the Parcel constructor, reading URI, name and MIME type in that order. */
  method CreateFromParcel(parcel: Parcel) returns (r: Result<SelectedItem, ParcelError>)
    requires parcel.Valid()
    modifies parcel
    ensures parcel.Valid() && parcel.data == old(parcel.data)
    ensures r == Decode(parcel.data, old(parcel.position))
    ensures r.Success? ==> parcel.position == if old(parcel.position) + 3 <= |parcel.data| then old(parcel.position) + 3 else |parcel.data|
    ensures r.Failure? ==> parcel.position == if old(parcel.position) + 1 <= |parcel.data| then old(parcel.position) + 1 else |parcel.data|
  {
    var u := parcel.ReadParcelable();
    if u.None? {
      return Failure(NullUri);
    }
    var name := parcel.ReadString();
    var mime := parcel.ReadString();
    r := Success(SelectedItem(u.value, name.GetOr(""), mime.GetOr("")));
  }

  /** Writing an item into a fresh parcel, rewinding and reading it back yields an equal item. */
  method TransferThroughParcel(item: SelectedItem) returns (r: Result<SelectedItem, ParcelError>)
    ensures r == Success(item)
  {
    var parcel := new Parcel();
    item.WriteToParcel(parcel, 0);
    parcel.SetDataPosition(0);
    r := CreateFromParcel(parcel);
    ParcelRoundTrip([], 0, item);
  }
}
