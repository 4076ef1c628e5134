/** The search criteria record of the home page (`result` in Home.jsx) and the object-spread
    merge applied to it. A criteria record is a JSON object, so it is modelled as a map from
    key to JSON value; `{ ...prev, ...patch }` is the right-biased map union `prev + patch`. */
module CriteriaStore {

  /** The JSON values that occur in criteria and in the interpreter's reply. */
  datatype Value = Null | Str(s: string) | Num(n: int) | StrList(items: seq<string>)

  type Criteria = map<string, Value>

  /** The keys of the initial criteria record. */
  const CriteriaKeys: set<string> := {
    "location", "amenities",
    "min_bedrooms", "max_bedrooms",
    "min_price", "max_price",
    "min_size", "max_size",
    "min_bathrooms", "max_bathrooms"
  }

  /** The initial record: every constraint null, the amenity list empty. */
  function Default(): (c: Criteria)
    ensures c.Keys == CriteriaKeys
    ensures c["amenities"] == StrList([])
    ensures forall k :: k in c && k != "amenities" ==> c[k] == Null
  {
    map[
      "location" := Null, "amenities" := StrList([]),
      "min_bedrooms" := Null, "max_bedrooms" := Null,
      "min_price" := Null, "max_price" := Null,
      "min_size" := Null, "max_size" := Null,
      "min_bathrooms" := Null, "max_bathrooms" := Null]
  }

  /** `{ ...prev, ...patch }`: every key of `patch` takes the patch's value, every other key
      of `prev` keeps its value, and no other key appears. */
  function Merge(prev: Criteria, patch: Criteria): (r: Criteria)
    ensures r.Keys == prev.Keys + patch.Keys
    ensures forall k :: k in patch ==> r[k] == patch[k]
    ensures forall k :: k in prev && k !in patch ==> r[k] == prev[k]
  {
    prev + patch
  }

  /** `const { message, ...rest } = reply`: the reply without its `message` key. */
  function WithoutMessage(reply: Criteria): (r: Criteria)
    ensures "message" !in r
    ensures r.Keys == reply.Keys - {"message"}
    ensures forall k :: k in r ==> r[k] == reply[k]
  {
    reply - {"message"}
  }

  /** The `message` field of the reply; a reply without one yields undefined, shown as Null. */
  function BotText(reply: Criteria): (r: Value)
    ensures "message" in reply ==> r == reply["message"]
  {
    if "message" in reply then reply["message"] else Null
  }

  /** Splitting the reply loses nothing: the text and the rest rebuild it. */
  lemma SplitReplyRoundTrip(reply: Criteria)
    ensures "message" in reply ==> reply == WithoutMessage(reply)["message" := BotText(reply)]
    ensures "message" !in reply ==> reply == WithoutMessage(reply)
  {
  }

  /** Merging no preferences leaves the criteria as they were. */
  lemma MergeEmptyIsIdentity(c: Criteria)
    ensures Merge(c, map[]) == c
  {
  }

  /** Applying the same preferences a second time changes nothing. */
  lemma MergeIdempotent(c: Criteria, patch: Criteria)
    ensures Merge(Merge(c, patch), patch) == Merge(c, patch)
  {
  }

  /** Merging a sub-record of the criteria (same values on its keys) is the identity. */
  lemma MergeSubRecordIsIdentity(c: Criteria, patch: Criteria)
    requires forall k :: k in patch ==> k in c && c[k] == patch[k]
    ensures Merge(c, patch) == c
  {
  }

  /** Start-up merge onto the defaults: exactly the keys of the stored preferences are
      overwritten; every other criterion keeps its default. */
  lemma MergeOntoDefaults(prefs: Criteria)
    ensures var r := Merge(Default(), prefs);
      && r.Keys == CriteriaKeys + prefs.Keys
      && (forall k :: k in prefs ==> r[k] == prefs[k])
      && (forall k :: k in CriteriaKeys && k !in prefs ==> r[k] == Default()[k])
  {
  }
}
