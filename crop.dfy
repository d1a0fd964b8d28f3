/**
 * `crop_data(obj, range, n_lastdim)`: walk a dictionary in key order and
 * replace every numpy array whose last dimension is `n_lastdim` by its
 * slice `[..., range]` over that dimension; other entries stay. The range
 * the readers pass is always `slice(0, c)`, so only its stop is modelled.
 */
module Crop {
  import opened Wire
  import opened Py

  /**
   * A dictionary value: a 0-d array (its shape has no last dimension), an
   * array viewed as its lanes along the last axis (shape `lead + [|lanes|]`,
   * each lane the flattened values at one last index), or anything else.
   */
  datatype Entry =
    | Scalar(v: int)
    | Array(lead: seq<nat>, lanes: seq<seq<int>>)
    | Other

  /** The entry after one pass of the loop body. */
  function CropEntry(e: Entry, stop: int, n: int): (r: Res<Entry>)
    ensures r.Raised? <==> e.Scalar?
    ensures r.Raised? ==> r.exc == IndexError
  {
    match e
    case Scalar(_) => Raised(IndexError)
    case Other => Ok(e)
    case Array(lead, lanes) =>
      if |lanes| == n then Ok(Array(lead, lanes[..SliceStop(stop, |lanes|)])) else Ok(e)
  }

  /** An array whose last dimension is the one being cropped. */
  predicate Matches(e: Entry, n: int)
  {
    e.Array? && |e.lanes| == n
  }

  /** Keys listed once each, all present in the map. */
  predicate KeysOf(keys: seq<string>, vals: map<string, Entry>)
  {
    && (forall i :: 0 <= i < |keys| ==> keys[i] in vals)
    && (forall i, j :: 0 <= i < j < |keys| ==> keys[i] != keys[j])
  }

  /**
   * The loop over `keys` from the front: each entry replaced in turn; a
   * 0-d array stops the loop with `IndexError`, leaving the entries
   * already replaced.
   */
  function CropAll(keys: seq<string>, vals: map<string, Entry>, stop: int, n: int): (r: (map<string, Entry>, Option<Exc>))
    requires forall i :: 0 <= i < |keys| ==> keys[i] in vals
    ensures r.0.Keys == vals.Keys
    decreases |keys|
  {
    if keys == [] then (vals, None)
    else match CropEntry(vals[keys[0]], stop, n)
    case Raised(x) => (vals, Some(x))
    case Ok(e) => CropAll(keys[1..], vals[keys[0] := e], stop, n)
  }

  lemma TailKeys(keys: seq<string>, vals: map<string, Entry>, e: Entry)
    requires KeysOf(keys, vals) && keys != []
    ensures KeysOf(keys[1..], vals[keys[0] := e])
    ensures forall i :: 0 <= i < |keys[1..]| ==> keys[1..][i] != keys[0]
  {
    forall i | 0 <= i < |keys[1..]| ensures keys[1..][i] != keys[0] {
      assert keys[1..][i] == keys[i + 1];
    }
  }

  /**
   * Without 0-d arrays the crop completes, every matching array keeps
   * exactly the lanes below `stop`, and every other entry (and every key
   * not listed) is unchanged.
   */
  lemma {:induction false} CropContents(keys: seq<string>, vals: map<string, Entry>, stop: int, n: int)
    requires KeysOf(keys, vals)
    requires forall i :: 0 <= i < |keys| ==> !vals[keys[i]].Scalar?
    ensures var (r, exc) := CropAll(keys, vals, stop, n);
            && exc.None?
            && (forall k :: k in vals && k !in keys ==> r[k] == vals[k])
            && (forall i :: 0 <= i < |keys| && !Matches(vals[keys[i]], n) ==> r[keys[i]] == vals[keys[i]])
            && (forall i :: 0 <= i < |keys| && Matches(vals[keys[i]], n) ==>
                  r[keys[i]] == Array(vals[keys[i]].lead, vals[keys[i]].lanes[..SliceStop(stop, n)]))
    decreases |keys|
  {
    if keys != [] {
      var e := CropEntry(vals[keys[0]], stop, n).value;
      var vals' := vals[keys[0] := e];
      TailKeys(keys, vals, e);
      forall i | 0 <= i < |keys[1..]| ensures !vals'[keys[1..][i]].Scalar? {
        assert keys[1..][i] == keys[i + 1];
      }
      CropContents(keys[1..], vals', stop, n);
      var r := CropAll(keys, vals, stop, n).0;
      forall i | 0 <= i < |keys|
        ensures !Matches(vals[keys[i]], n) ==> r[keys[i]] == vals[keys[i]]
        ensures Matches(vals[keys[i]], n) ==> r[keys[i]] == Array(vals[keys[i]].lead, vals[keys[i]].lanes[..SliceStop(stop, n)])
      {
        if i > 0 {
          assert keys[i] == keys[1..][i - 1];
        }
      }
    }
  }

  /** The crop raises exactly when a listed entry is a 0-d array, and then with `IndexError`. */
  lemma {:induction false} CropRaisesOnScalar(keys: seq<string>, vals: map<string, Entry>, stop: int, n: int)
    requires KeysOf(keys, vals)
    ensures CropAll(keys, vals, stop, n).1.Some? <==> exists i :: 0 <= i < |keys| && vals[keys[i]].Scalar?
    ensures CropAll(keys, vals, stop, n).1.Some? ==> CropAll(keys, vals, stop, n).1.value == IndexError
    decreases |keys|
  {
    if keys != [] && !vals[keys[0]].Scalar? {
      var e := CropEntry(vals[keys[0]], stop, n).value;
      var vals' := vals[keys[0] := e];
      TailKeys(keys, vals, e);
      CropRaisesOnScalar(keys[1..], vals', stop, n);
      assert (exists i :: 0 <= i < |keys| && vals[keys[i]].Scalar?) <==>
             (exists i :: 0 <= i < |keys[1..]| && vals'[keys[1..][i]].Scalar?) by {
        if i :| 0 <= i < |keys| && vals[keys[i]].Scalar? {
          assert i > 0 && keys[1..][i - 1] == keys[i];
        }
        if i :| 0 <= i < |keys[1..]| && vals'[keys[1..][i]].Scalar? {
          assert keys[1..][i] == keys[i + 1];
        }
      }
    }
  }

  /**
   * The newer reader hands `crop_data` its top-level dictionary, whose
   * values are all dictionaries of columns: nothing there is an array, so
   * the crop leaves it exactly as it was.
   */
  lemma {:induction false} CropOfGroupsIsIdentity(keys: seq<string>, vals: map<string, Entry>, stop: int, n: int)
    requires forall i :: 0 <= i < |keys| ==> keys[i] in vals && vals[keys[i]] == Other
    ensures CropAll(keys, vals, stop, n) == (vals, None)
    decreases |keys|
  {
    if keys != [] {
      assert vals[keys[0] := Other] == vals;
      CropOfGroupsIsIdentity(keys[1..], vals, stop, n);
    }
  }

  /** Cropping a second time with the same stop changes nothing more. */
  lemma CropIdempotent(keys: seq<string>, vals: map<string, Entry>, stop: int, n: int)
    requires KeysOf(keys, vals)
    requires forall i :: 0 <= i < |keys| ==> !vals[keys[i]].Scalar?
    ensures CropAll(keys, CropAll(keys, vals, stop, n).0, stop, n) == CropAll(keys, vals, stop, n)
  {
    var r := CropAll(keys, vals, stop, n).0;
    CropContents(keys, vals, stop, n);
    forall i | 0 <= i < |keys| ensures !r[keys[i]].Scalar? {
    }
    CropContents(keys, r, stop, n);
    var r2 := CropAll(keys, r, stop, n).0;
    forall k | k in r ensures r2[k] == r[k] {
      if i :| 0 <= i < |keys| && keys[i] == k {
        if Matches(vals[k], n) {
          var m := SliceStop(stop, n);
          if Matches(r[k], n) {
            assert vals[k].lanes[..m][..SliceStop(stop, n)] == vals[k].lanes[..m];
          }
        }
      }
    }
    assert r2 == r;
  }

  /**
   * A dictionary of sample columns in key order: `crop_data` replaces its
   * entries in place.
   */
  class DataDict {
    var keys: seq<string>
    var vals: map<string, Entry>

    ghost predicate Valid()
      reads this
    {
      KeysOf(keys, vals) && (forall k :: k in vals ==> k in keys)
    }

    constructor(keys: seq<string>, vals: map<string, Entry>)
      requires KeysOf(keys, vals) && (forall k :: k in vals ==> k in keys)
      ensures Valid() && this.keys == keys && this.vals == vals
    {
      this.keys := keys;
      this.vals := vals;
    }

    /**
     * `crop_data(self, slice(0, stop), n)`: returns the exception that
     * stopped it, if any; the entries replaced are those `CropAll` gives.
     */
    method CropData(stop: int, n: int) returns (exc: Option<Exc>)
      requires Valid()
      modifies this
      ensures Valid() && keys == old(keys)
      ensures (vals, exc) == CropAll(old(keys), old(vals), stop, n)
    {
      var rest := keys;
      while rest != []
        invariant keys == old(keys) && vals.Keys == old(vals).Keys
        invariant forall j :: 0 <= j < |rest| ==> rest[j] in vals
        invariant CropAll(rest, vals, stop, n) == CropAll(keys, old(vals), stop, n)
        decreases |rest|
      {
        match CropEntry(vals[rest[0]], stop, n)
        case Raised(x) => {
          return Some(x);
        }
        case Ok(e) => {
          vals := vals[rest[0] := e];
        }
        rest := rest[1..];
      }
      return None;
    }
  }
}
