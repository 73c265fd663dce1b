/**
 The emoji metadata the builder reads, as the Python values it is made of.

 The `emoji` library exposes one of two module attributes: `EMOJI_DATA`
 (version 2 and later: character to a record dict) or `UNICODE_EMOJI` (older
 versions: character to a name string, possibly nested one level under a
 locale key). A dict is an ordered sequence of key/value pairs, in insertion
 order, which is the order `dict.items()` iterates in.
 */
module EmojiSource {
  import opened Wrappers

  /** A Python value as far as the builder can tell them apart. */
  datatype Value =
    | Str(text: string)                    // a `str`
    | Dict(items: seq<(string, Value)>)    // a `dict` with string keys
    | Other                                // any other value (a number, a list, `None`, ...)

  /** Which attribute the installed `emoji` library provides. */
  datatype Source =
    | V2(emojiData: seq<(string, Value)>)      // `emoji.EMOJI_DATA`
    | V1(unicodeEmoji: seq<(string, Value)>)   // `emoji.UNICODE_EMOJI`
    | Unavailable                              // neither attribute exists

  /** `d.get(key)` on a dict: the value of the first pair with that key. */
  function Lookup(items: seq<(string, Value)>, key: string): (r: Option<Value>)
    ensures r.None? <==> forall i :: 0 <= i < |items| ==> items[i].0 != key
    ensures r.Some? ==> exists i :: 0 <= i < |items| && items[i] == (key, r.value)
  {
    if items == [] then None
    else if items[0].0 == key then Some(items[0].1)
    else
      var r := Lookup(items[1..], key);
      assert r.Some? ==> exists i :: 0 <= i < |items[1..]| && items[1..][i] == (key, r.value);
      r
  }
}
