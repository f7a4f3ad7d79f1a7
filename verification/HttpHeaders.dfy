/** The loops of the header helpers, each proved against the function that the machine uses. */
module HttpHeaders {
  import opened Bytes
  import opened HttpMachine

  /** The backward scan of parseContentLength for the last character that is no space. */
  method TrimTrailingSpaces(cl: Str) returns (r: Str)
    ensures r == TrimLength(cl)
  {
    r := cl;
    var i := |cl| - 1;
    assert cl[..i + 1] == cl;
    while i >= 0
      invariant -1 <= i < |cl| && r == cl
      invariant SpacesFrom(cl) == SpacesFrom(cl[..i + 1])
    {
      if cl[i] != SP {
        if i != |cl| - 1 {
          r := cl[..i + 1];
        }
        return;
      }
      assert cl[..i + 1][..i] == cl[..i];
      i := i - 1;
    }
  }

  /** One value of the Trailer field: a single name, or names separated by commas. */
  method NamesOf(env: Env, value: Str, before: set<Str>) returns (r: Result<set<Str>>)
    ensures match TrailerNames(env, Split(Trim(value)))
            case Bad(e) => r == Bad(e)
            case Good(names) => r == Good(before + names)
  {
    var key := Trim(value);
    TrimTwice(value);
    if COMMA !in key {
      assert Split(key) == [key] && [key][..0] == [];
      assert TrailerNames(env, [key][..0]) == Good({});
      if key == [] {
        assert before + {} == before;
        return Good(before);
      }
      var k := Canonical(env, key);
      if IsFraming(k) { return Bad(BadTrailerKey); }
      assert {} + {k} == {k};
      return Good(before + {k});
    }
    var names, i, found := Split(key), 0, before;
    while i < |names|
      invariant 0 <= i <= |names|
      invariant TrailerNames(env, names[..i]).Good?
      invariant found == before + TrailerNames(env, names[..i]).value
    {
      assert names[..i + 1][..i] == names[..i];
      var k := Trim(names[i]);
      if k != [] {
        k := Canonical(env, k);
        if IsFraming(k) {
          TrailerNamesFail(env, names, i + 1);
          return Bad(BadTrailerKey);
        }
        found := found + {k};
      }
      i := i + 1;
    }
    assert names[..i] == names;
    r := Good(found);
  }

  /** The loop of parseTrailer over the values of the Trailer field. */
  method CollectTrailers(env: Env, values: seq<Str>) returns (r: Result<set<Str>>)
    ensures r == TrailerSet(env, values)
  {
    var trailer, i := {}, 0;
    while i < |values|
      invariant 0 <= i <= |values| && TrailerSet(env, values[..i]) == Good(trailer)
    {
      assert values[..i + 1][..i] == values[..i];
      var names := NamesOf(env, values[i], trailer);
      if names.Bad? {
        TrailerSetFail(env, values, i + 1);
        return names;
      }
      trailer := names.value;
      i := i + 1;
    }
    assert values[..i] == values;
    r := Good(trailer);
  }
}
