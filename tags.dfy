/**
 * Tag lookup with a default (get_instance_name, get_instance_owner).
 * An instance's tags are an optional list of Key/Value pairs; a lookup scans
 * the list, stops at the first tag whose key matches exactly, and falls back
 * to a default when the list is absent, empty, or holds no such key.
 */
module Tags {
  import opened Wrappers

  datatype Tag = Tag(key: string, value: string)

  const NameKey := "Name"
  const NameDefault := "N/A"
  const OwnerKey := "OWNER"
  const OwnerDefault := "-"

  /** The value of the first tag whose key is `key`, if any. */
  function FirstValue(tags: seq<Tag>, key: string): Option<string>
  {
    if tags == [] then None
    else if tags[0].key == key then Some(tags[0].value)
    else FirstValue(tags[1..], key)
  }

  /** What a lookup returns: the first matching value, else `default`. */
  function TagValueOr(tags: Option<seq<Tag>>, key: string, default: string): string
  {
    match tags
    case None => default
    case Some(ts) => FirstValue(ts, key).GetOr(default)
  }

  /** Index `k` holds the first tag of `tags` whose key is `key`. */
  predicate IsFirstMatch(tags: seq<Tag>, key: string, k: int)
  {
    0 <= k < |tags| && tags[k].key == key && forall j :: 0 <= j < k ==> tags[j].key != key
  }

  /** The linear scan with early exit shared by both lookups. */
  method LookupTag(tags: Option<seq<Tag>>, key: string, default: string) returns (value: string)
    ensures value == TagValueOr(tags, key, default)
  {
    value := default;
    if tags.Some? && tags.value != [] {
      var ts := tags.value;
      var i := 0;
      while i < |ts|
        invariant 0 <= i <= |ts|
        invariant value == default
        invariant FirstValue(ts[i..], key) == FirstValue(ts, key)
      {
        if ts[i].key == key {
          value := ts[i].value;
          break;
        }
        assert ts[i..][1..] == ts[i + 1..];
        i := i + 1;
      }
    }
  }

  /** get_instance_name: the first `Name` tag's value, else "N/A". */
  method GetInstanceName(tags: Option<seq<Tag>>) returns (name: string)
    ensures name == TagValueOr(tags, NameKey, NameDefault)
  {
    name := LookupTag(tags, NameKey, NameDefault);
  }

  /** get_instance_owner: the first `OWNER` tag's value, else "-". */
  method GetInstanceOwner(tags: Option<seq<Tag>>) returns (owner: string)
    ensures owner == TagValueOr(tags, OwnerKey, OwnerDefault)
  {
    owner := LookupTag(tags, OwnerKey, OwnerDefault);
  }

  /** A lookup finds a value exactly at the first matching index. */
  lemma {:induction false} FirstValueFound(tags: seq<Tag>, key: string, k: int)
    requires IsFirstMatch(tags, key, k)
    ensures FirstValue(tags, key) == Some(tags[k].value)
  {
    if k > 0 {
      assert tags[0].key != key;
      assert IsFirstMatch(tags[1..], key, k - 1);
      FirstValueFound(tags[1..], key, k - 1);
    }
  }

  /** A lookup finds nothing exactly when no tag has the key. */
  lemma {:induction false} FirstValueMissing(tags: seq<Tag>, key: string)
    ensures FirstValue(tags, key).None? <==> forall k :: 0 <= k < |tags| ==> tags[k].key != key
  {
    if tags != [] {
      FirstValueMissing(tags[1..], key);
      if tags[0].key != key {
        forall k | 0 < k < |tags| ensures tags[k].key == tags[1..][k - 1].key { }
      }
    }
  }

  /**
   * Whatever comes after a match is never looked at: the lookup over two
   * lists is the lookup over the first, falling through to the second only
   * when the first has no such key.
   */
  lemma {:induction false} FirstValueAppend(front: seq<Tag>, back: seq<Tag>, key: string)
    ensures FirstValue(front + back, key) ==
            if FirstValue(front, key).Some? then FirstValue(front, key) else FirstValue(back, key)
  {
    if front == [] {
      assert front + back == back;
    } else {
      assert (front + back)[1..] == front[1..] + back;
      FirstValueAppend(front[1..], back, key);
    }
  }

  /** The name lookup, in terms of the tag list: the first `Name` value or "N/A". */
  lemma InstanceNameSpec(tags: Option<seq<Tag>>)
    ensures tags.None? ==> TagValueOr(tags, NameKey, NameDefault) == "N/A"
    ensures tags.Some? && (forall k :: 0 <= k < |tags.value| ==> tags.value[k].key != "Name") ==>
              TagValueOr(tags, NameKey, NameDefault) == "N/A"
    ensures forall k :: tags.Some? && IsFirstMatch(tags.value, "Name", k) ==>
              TagValueOr(tags, NameKey, NameDefault) == tags.value[k].value
  {
    if tags.Some? {
      FirstValueMissing(tags.value, NameKey);
      forall k | IsFirstMatch(tags.value, NameKey, k) ensures FirstValue(tags.value, NameKey) == Some(tags.value[k].value) {
        FirstValueFound(tags.value, NameKey, k);
      }
    }
  }

  /** The owner lookup, in terms of the tag list: the first `OWNER` value or "-". */
  lemma InstanceOwnerSpec(tags: Option<seq<Tag>>)
    ensures tags.None? ==> TagValueOr(tags, OwnerKey, OwnerDefault) == "-"
    ensures tags.Some? && (forall k :: 0 <= k < |tags.value| ==> tags.value[k].key != "OWNER") ==>
              TagValueOr(tags, OwnerKey, OwnerDefault) == "-"
    ensures forall k :: tags.Some? && IsFirstMatch(tags.value, "OWNER", k) ==>
              TagValueOr(tags, OwnerKey, OwnerDefault) == tags.value[k].value
  {
    if tags.Some? {
      FirstValueMissing(tags.value, OwnerKey);
      forall k | IsFirstMatch(tags.value, OwnerKey, k) ensures FirstValue(tags.value, OwnerKey) == Some(tags.value[k].value) {
        FirstValueFound(tags.value, OwnerKey, k);
      }
    }
  }
}
