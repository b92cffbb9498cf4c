/** How `open` reads its path `name?…?k1=v1&k2=v2`: the endpoint name, the argument segment
    and the argument map. */
module OpenArgs {
  import opened Native
  import opened Text

  /** Occurrences of `c` in `s`. */
  function CountOf(s: string, c: char): (n: nat)
    ensures n <= |s|
    ensures n == 0 <==> c !in s
  {
    if s == [] then 0 else (if s[0] == c then 1 else 0) + CountOf(s[1..], c)
  }

  /** A split yields one piece more than there are separators. */
  lemma {:induction false} SplitCount(s: string, sep: char)
    ensures |Split(s, sep)| == CountOf(s, sep) + 1
  {
    if s != [] {
      SplitCount(s[1..], sep);
    }
  }

  /** The endpoint name: everything before the first `?`. */
  function PathName(path: string): (name: string)
    ensures '?' !in name
    ensures name <= path
  {
    SplitPiecesLackSeparator(path, '?');
    SplitPrefix(path, '?');
    Split(path, '?')[0]
  }

  lemma {:induction false} SplitPrefix(s: string, sep: char)
    ensures Split(s, sep)[0] <= s
  {
    if s != [] {
      SplitPrefix(s[1..], sep);
    }
  }

  /** The argument segment: `path.split('?')` advanced once by `next()` and then by `nth(1)`,
      that is the THIRD piece, skipping the second. */
  function ArgSegment(path: string): (seg: Option<string>)
    ensures seg.Some? <==> CountOf(path, '?') >= 2
    ensures seg.Some? ==> '?' !in seg.value
  {
    SplitCount(path, '?');
    SplitPiecesLackSeparator(path, '?');
    var pieces := Split(path, '?');
    if |pieces| >= 3 then Some(pieces[2]) else None
  }

  /** The key of one `&`-piece: the text before its first `=`, the whole piece when it has
      none. */
  function Key(piece: string): (key: string)
    ensures '=' !in key && key <= piece
    ensures key == piece <==> '=' !in piece
  {
    SplitPiecesLackSeparator(piece, '=');
    SplitPrefix(piece, '=');
    assert '=' !in piece ==> Split(piece, '=') == [piece] by {
      if '=' !in piece {
        SplitWithoutSeparator(piece, '=');
      }
    }
    Split(piece, '=')[0]
  }

  /** Whether the piece has a second `=`-part, i.e. whether it holds an `=` at all. */
  predicate HasValue(piece: string)
    ensures HasValue(piece) <==> '=' in piece
  {
    SplitCount(piece, '=');
    |Split(piece, '=')| >= 2
  }

  /** The value of one `&`-piece: the text between its first and second `=`; anything after a
      second `=` is ignored. */
  function Value(piece: string): (value: string)
    requires HasValue(piece)
    ensures '=' !in value
    ensures Key(piece) + ['='] + value <= piece
  {
    var pieces := Split(piece, '=');
    SplitPiecesLackSeparator(piece, '=');
    JoinSplit(piece, '=');
    JoinHeadPrefix(pieces[1..], '=');
    assert Join(pieces, '=') == pieces[0] + ['='] + Join(pieces[1..], '=');
    pieces[1]
  }

  /** A piece `key=value`, followed or not by a further `=` and anything else, yields that key
      and that value: only the first two `=`-parts are read. */
  lemma KeyValueOfPiece(key: string, value: string, rest: Option<string>)
    requires '=' !in key && '=' !in value
    ensures var piece := key + ['='] + value + (if rest.Some? then ['='] + rest.value else []);
      HasValue(piece) && Key(piece) == key && Value(piece) == value
  {
    var tail := if rest.Some? then ['='] + rest.value else [];
    var piece := key + ['='] + value + tail;
    assert piece == key + ['='] + (value + tail);
    SplitAtSeparator(key, '=', value + tail);
    SplitWithoutSeparator(key, '=');
    if rest.Some? {
      SplitAtSeparator(value, '=', rest.value);
      SplitWithoutSeparator(value, '=');
      assert value + tail == value + ['='] + rest.value;
    } else {
      assert value + tail == value;
      SplitWithoutSeparator(value, '=');
    }
  }

  predicate DistinctKeys(pieces: seq<string>)
  {
    forall i, j :: 0 <= i < j < |pieces| ==> Key(pieces[i]) != Key(pieces[j])
  }

  predicate AllHaveValues(pieces: seq<string>)
  {
    forall i :: 0 <= i < |pieces| ==> HasValue(pieces[i])
  }

  /** The pieces `open` accepts: each has a value and no key repeats. */
  predicate WellFormedArgs(pieces: seq<string>)
  {
    AllHaveValues(pieces) && DistinctKeys(pieces)
  }

  /** The map built by inserting each piece's key and value in turn: it has at most one entry
      per piece, and the last piece's binding is the one that stands. */
  function ArgMap(pieces: seq<string>): (m: map<string, string>)
    requires AllHaveValues(pieces)
    ensures |m| <= |pieces|
    ensures pieces != [] ==>
      var last := pieces[|pieces| - 1];
      Key(last) in m && m[Key(last)] == Value(last)
  {
    if pieces == [] then map[]
    else
      var last := pieces[|pieces| - 1];
      ArgMap(pieces[..|pieces| - 1])[Key(last) := Value(last)]
  }

  /** The keys of the pieces, in order. */
  function Keys(pieces: seq<string>): (keys: seq<string>)
    ensures |keys| == |pieces|
    ensures forall i :: 0 <= i < |pieces| ==> keys[i] == Key(pieces[i])
  {
    if pieces == [] then [] else Keys(pieces[..|pieces| - 1]) + [Key(pieces[|pieces| - 1])]
  }

  /** The argument map's keys are exactly the pieces' keys. */
  lemma {:induction false} ArgMapKeys(pieces: seq<string>)
    requires AllHaveValues(pieces)
    ensures forall key :: key in ArgMap(pieces) <==> key in Keys(pieces)
  {
    if pieces != [] {
      var n := |pieces| - 1;
      ArgMapKeys(pieces[..n]);
      assert Keys(pieces) == Keys(pieces[..n]) + [Key(pieces[n])];
    }
  }

  /** When no key repeats, each key is bound to the value written beside it. */
  lemma {:induction false} ArgMapValues(pieces: seq<string>)
    requires WellFormedArgs(pieces)
    ensures forall i :: 0 <= i < |pieces| ==>
      Key(pieces[i]) in ArgMap(pieces) && ArgMap(pieces)[Key(pieces[i])] == Value(pieces[i])
  {
    if pieces != [] {
      var n := |pieces| - 1;
      var init := pieces[..n];
      var last := pieces[n];
      assert WellFormedArgs(init) by {
        forall i, j | 0 <= i < j < n ensures Key(init[i]) != Key(init[j]) {
          assert init[i] == pieces[i] && init[j] == pieces[j];
        }
      }
      ArgMapValues(init);
      assert ArgMap(pieces) == ArgMap(init)[Key(last) := Value(last)];
      forall i | 0 <= i < n
        ensures Key(pieces[i]) in ArgMap(pieces) && ArgMap(pieces)[Key(pieces[i])] == Value(pieces[i])
      {
        assert init[i] == pieces[i];
        assert Key(pieces[i]) != Key(last);
      }
    }
  }

  /** A key already in the map built so far repeats a key of an earlier piece. */
  lemma DuplicateKey(pieces: seq<string>, i: nat)
    requires i < |pieces| && AllHaveValues(pieces[..i])
    requires Key(pieces[i]) in ArgMap(pieces[..i])
    ensures !DistinctKeys(pieces)
  {
    ArgMapKeys(pieces[..i]);
    var j :| 0 <= j < i && Keys(pieces[..i])[j] == Key(pieces[i]);
    assert pieces[..i][j] == pieces[j];
  }

  /** A new key keeps the keys distinct. */
  lemma ExtendDistinct(pieces: seq<string>, i: nat)
    requires i < |pieces| && AllHaveValues(pieces[..i]) && DistinctKeys(pieces[..i])
    requires Key(pieces[i]) !in ArgMap(pieces[..i])
    ensures DistinctKeys(pieces[..i + 1])
  {
    var done := pieces[..i + 1];
    var prefix := pieces[..i];
    ArgMapKeys(prefix);
    forall j, k | 0 <= j < k < i + 1 ensures Key(done[j]) != Key(done[k]) {
      assert done[j] == prefix[j];
      if k < i {
        assert done[k] == prefix[k];
      } else {
        assert done[k] == pieces[i];
        assert Keys(prefix)[j] == Key(prefix[j]);
      }
    }
  }

  /** A piece with a value and a new key extends a well-formed prefix, and the map by its
      binding. */
  lemma ExtendArgs(pieces: seq<string>, i: nat)
    requires i < |pieces| && WellFormedArgs(pieces[..i])
    requires HasValue(pieces[i]) && Key(pieces[i]) !in ArgMap(pieces[..i])
    ensures WellFormedArgs(pieces[..i + 1])
    ensures ArgMap(pieces[..i + 1]) == ArgMap(pieces[..i])[Key(pieces[i]) := Value(pieces[i])]
  {
    var done := pieces[..i + 1];
    var prefix := pieces[..i];
    assert done[..i] == prefix && done[i] == pieces[i];
    ExtendDistinct(pieces, i);
    assert AllHaveValues(done) by {
      forall j | 0 <= j < i + 1 ensures HasValue(done[j]) {
        if j < i {
          assert done[j] == prefix[j];
        }
      }
    }
    assert ArgMap(done) == ArgMap(prefix)[Key(done[i]) := Value(done[i])];
  }

  /** The argument loop of `open`: split the segment on `&`, each piece on `=`, and insert
      key and value into a fresh map. It gives up (`None`, which `open` turns into `EINVAL`)
      on the first piece without a value or whose key is already in the map. */
  method ParseArgs(args: string) returns (r: Option<map<string, string>>)
    ensures r.Some? <==> WellFormedArgs(Split(args, '&'))
    ensures r.Some? ==> r.value == ArgMap(Split(args, '&'))
  {
    var pieces := Split(args, '&');
    var m: map<string, string> := map[];
    var i := 0;
    while i < |pieces|
      invariant 0 <= i <= |pieces|
      invariant WellFormedArgs(pieces[..i])
      invariant m == ArgMap(pieces[..i])
    {
      var keyEqualsValue := Split(pieces[i], '=');
      if |keyEqualsValue| < 2 {
        assert !HasValue(pieces[i]);
        return None;
      }
      var key, value := keyEqualsValue[0], keyEqualsValue[1];
      if key in m {
        // the key was set twice
        DuplicateKey(pieces, i);
        return None;
      }
      ExtendArgs(pieces, i);
      m := m[key := value];
      i := i + 1;
    }
    assert pieces[..i] == pieces;
    return Some(m);
  }
}
