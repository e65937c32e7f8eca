/**
 * Public-key authentication. At start-up the configured authorized-key
 * lines are parsed; each line that parses contributes its serialized
 * (wire-format) key to an allow-list and each line that does not is
 * skipped with a warning. The public-key callback then accepts a key
 * exactly when its serialized form is in the allow-list.
 */
module Auth {
  import opened Wrappers
  import opened Wire

  /** A public key in its serialized wire form (`pubKey.Marshal()`). */
  type WireKey = seq<byte>

  /**
   * The key parser: `ssh.ParseAuthorizedKey` followed by `Marshal`, as a
   * partial function from an authorized-key line to a serialized key
   * (`None` when the line is malformed).
   */
  type KeyParser = string -> Option<WireKey>

  /** The serialized keys of the lines that parse. */
  function ParsedKeys(entries: seq<string>, parse: KeyParser): set<WireKey>
  {
    set i | 0 <= i < |entries| && parse(entries[i]).Some? :: parse(entries[i]).value
  }

  /** The line numbers, in order, of the lines that do not parse. */
  function MalformedLines(entries: seq<string>, parse: KeyParser): seq<nat>
  {
    if entries == [] then []
    else
      var n := |entries| - 1;
      MalformedLines(entries[..n], parse) + (if parse(entries[n]).None? then [n] else [])
  }

  /** A key is in `ParsedKeys` exactly when some line parses to it. */
  lemma ParsedKeysMembers(entries: seq<string>, parse: KeyParser, k: WireKey)
    ensures k in ParsedKeys(entries, parse) <==> exists i :: 0 <= i < |entries| && parse(entries[i]) == Some(k)
  {
    if exists i :: 0 <= i < |entries| && parse(entries[i]) == Some(k) {
      var i :| 0 <= i < |entries| && parse(entries[i]) == Some(k);
      assert parse(entries[i]).value == k;
    }
  }

  /** Taking one more line adds at most its own key. */
  lemma ParsedKeysSnoc(entries: seq<string>, i: nat, parse: KeyParser)
    requires i < |entries|
    ensures ParsedKeys(entries[..i + 1], parse)
      == ParsedKeys(entries[..i], parse) + (if parse(entries[i]).Some? then {parse(entries[i]).value} else {})
  {
    var before, after := entries[..i], entries[..i + 1];
    forall k ensures k in ParsedKeys(after, parse) <==>
      k in ParsedKeys(before, parse) || (parse(entries[i]).Some? && k == parse(entries[i]).value)
    {
      ParsedKeysMembers(after, parse, k);
      ParsedKeysMembers(before, parse, k);
      if exists j :: 0 <= j < |before| && parse(before[j]) == Some(k) {
        var j :| 0 <= j < |before| && parse(before[j]) == Some(k);
        assert after[j] == before[j];
      }
      if exists j :: 0 <= j < |after| && parse(after[j]) == Some(k) {
        var j :| 0 <= j < |after| && parse(after[j]) == Some(k);
        if j < i { assert before[j] == after[j]; }
      }
      if parse(entries[i]).Some? && k == parse(entries[i]).value {
        assert parse(after[i]) == Some(k);
      }
    }
  }

  /** The reported lines are exactly the malformed ones, in increasing order. */
  lemma {:induction false} MalformedLinesSpec(entries: seq<string>, parse: KeyParser)
    ensures forall j :: j in MalformedLines(entries, parse) <==> 0 <= j < |entries| && parse(entries[j]).None?
    ensures forall a, b :: 0 <= a < b < |MalformedLines(entries, parse)| ==>
      MalformedLines(entries, parse)[a] < MalformedLines(entries, parse)[b]
  {
    if entries != [] {
      var n := |entries| - 1;
      var init := entries[..n];
      MalformedLinesSpec(init, parse);
      var m := MalformedLines(init, parse);
      assert forall j :: j in m ==> j < n;
      assert forall a :: 0 <= a < |m| ==> m[a] in m;
      forall j ensures j in MalformedLines(entries, parse) <==> 0 <= j < |entries| && parse(entries[j]).None? {
        if 0 <= j < n { assert init[j] == entries[j]; }
      }
    }
  }

  /**
   * The allow-list loop of `SSHdListenAndServe`: every line that parses
   * adds its key, every malformed line is skipped (and reported) without
   * stopping the loop.
   */
  method BuildAllowList(entries: seq<string>, parse: KeyParser) returns (allowed: set<WireKey>, skipped: seq<nat>)
    ensures forall k :: k in allowed <==> exists i :: 0 <= i < |entries| && parse(entries[i]) == Some(k)
    ensures forall j :: j in skipped <==> 0 <= j < |entries| && parse(entries[j]).None?
    ensures forall a, b :: 0 <= a < b < |skipped| ==> skipped[a] < skipped[b]
  {
    allowed, skipped := {}, [];
    var i := 0;
    while i < |entries|
      invariant 0 <= i <= |entries|
      invariant allowed == ParsedKeys(entries[..i], parse)
      invariant skipped == MalformedLines(entries[..i], parse)
    {
      assert entries[..i + 1][..i] == entries[..i];
      ParsedKeysSnoc(entries, i, parse);
      match parse(entries[i]) {
        case None =>
          skipped := skipped + [i];
        case Some(key) =>
          allowed := allowed + {key};
      }
      i := i + 1;
    }
    assert entries[..i] == entries;
    forall k ensures k in allowed <==> exists i :: 0 <= i < |entries| && parse(entries[i]) == Some(k) {
      ParsedKeysMembers(entries, parse, k);
    }
    MalformedLinesSpec(entries, parse);
  }

  /** Why the callback refused a key: `unknown public key for <user>`. */
  datatype AuthError = UnknownPublicKey(user: string)

  /** The `PublicKeyCallback`: accept exactly the keys on the allow-list. */
  function PublicKeyCallback(allowed: set<WireKey>, user: string, key: WireKey): (r: Result<(), AuthError>)
    ensures r.Ok? <==> key in allowed
    ensures r.Err? ==> r.error == UnknownPublicKey(user)
  {
    if key in allowed then Ok(()) else Err(UnknownPublicKey(user))
  }

  /**
   * End to end: a client is let in exactly when its key is the parse of
   * some configured line, whoever the user is.
   */
  lemma AcceptsExactlyConfiguredKeys(entries: seq<string>, parse: KeyParser, user: string, key: WireKey)
    ensures PublicKeyCallback(ParsedKeys(entries, parse), user, key).Ok?
      <==> exists i :: 0 <= i < |entries| && parse(entries[i]) == Some(key)
  {
    ParsedKeysMembers(entries, parse, key);
  }

  /**
   * A malformed line before a valid one does not stop start-up: the
   * valid key is accepted, every other key is refused, and the malformed
   * line is the one reported.
   */
  lemma MalformedThenValid(bad: string, good: string, k: WireKey, parse: KeyParser, user: string, other: WireKey)
    requires parse(bad).None? && parse(good) == Some(k) && other != k
    ensures ParsedKeys([bad, good], parse) == {k}
    ensures MalformedLines([bad, good], parse) == [0]
    ensures PublicKeyCallback(ParsedKeys([bad, good], parse), user, k).Ok?
    ensures PublicKeyCallback(ParsedKeys([bad, good], parse), user, other) == Err(UnknownPublicKey(user))
  {
    var entries := [bad, good];
    assert entries[1] == good;
    assert k in ParsedKeys(entries, parse);
    assert entries[..1] == [bad] && [bad][..0] == [];
    assert MalformedLines([bad], parse) == [0];
  }
}
