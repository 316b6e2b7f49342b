/** The dot notation of ignored fields: dots separate keys, a backslash takes the next character literally. */
module FieldPaths {
  import opened Json

  /** The keys left to read when `current` has been collected and `escaped` says a backslash was just seen. */
  function SplitFrom(path: string, current: string, escaped: bool): seq<string> {
    if path == [] then Flush(current)
    else if escaped then SplitFrom(path[1..], current + [path[0]], false)
    else if path[0] == '\\' then SplitFrom(path[1..], current, true)
    else if path[0] == '.' then Flush(current) + SplitFrom(path[1..], "", false)
    else SplitFrom(path[1..], current + [path[0]], false)
  }

  /** Empty keys are dropped. */
  function Flush(current: string): seq<string> {
    if current != "" then [current] else []
  }

  function Split(path: string): Path {
    SplitFrom(path, "", false)
  }

  /** splitPath: one pass with a builder and an escape flag. */
  method SplitPath(path: string) returns (parts: seq<string>)
    ensures parts == Split(path)
  {
    parts := [];
    var current := "";
    var escaped := false;
    for i := 0 to |path|
      invariant parts + SplitFrom(path[i..], current, escaped) == Split(path)
    {
      var r := path[i];
      assert path[i..][0] == r && path[i..][1..] == path[i + 1..];
      if escaped {
        current := current + [r];
        escaped := false;
      } else if r == '\\' {
        escaped := true;
      } else if r == '.' {
        assert parts + (Flush(current) + SplitFrom(path[i + 1..], "", false))
            == (parts + Flush(current)) + SplitFrom(path[i + 1..], "", false);
        if current != "" {
          parts := parts + [current];
          current := "";
        }
      } else {
        current := current + [r];
      }
    }
    if current != "" {
      parts := parts + [current];
    }
  }

  /** strings.TrimPrefix(path, "."). */
  function TrimDot(path: string): string {
    if path != "" && path[0] == '.' then path[1..] else path
  }

  /** The location a field path names. */
  function Parts(path: string): Path {
    Split(TrimDot(path))
  }

  // ---------------------------------------------------------------- escaping

  predicate NonEmpty(keys: Path) {
    forall i | 0 <= i < |keys| :: keys[i] != ""
  }

  function EscapeChar(c: char): string {
    if c == '.' || c == '\\' then ['\\', c] else [c]
  }

  function Escape(key: string): string {
    if key == "" then "" else EscapeChar(key[0]) + Escape(key[1..])
  }

  /** The spelling of a location: escaped keys joined with dots. */
  function Spell(keys: Path): string {
    if keys == [] then ""
    else if |keys| == 1 then Escape(keys[0])
    else Escape(keys[0]) + "." + Spell(keys[1..])
  }

  /** A key without dots and backslashes needs no escaping. */
  predicate Unspecial(key: string) {
    forall c | c in key :: c != '.' && c != '\\'
  }

  lemma {:induction false} EscapePlain(key: string)
    requires Unspecial(key)
    ensures Escape(key) == key
    decreases |key|
  {
    if key == "" {
    } else {
      assert key == [key[0]] + key[1..];
      assert key[0] in key && forall c | c in key[1..] :: c in key;
      EscapePlain(key[1..]);
    }
  }

  lemma {:induction false} EscapeConcat(a: string, b: string)
    ensures Escape(a + b) == Escape(a) + Escape(b)
    decreases |a|
  {
    if a == "" {
      assert a + b == b;
    } else {
      assert (a + b)[1..] == a[1..] + b;
      EscapeConcat(a[1..], b);
    }
  }

  lemma SpellTwo(k: string, l: string)
    ensures Spell([k, l]) == Escape(k) + "." + Escape(l)
  {
    assert [k, l][1..] == [l];
  }

  lemma SpellThree(k: string, l: string, m: string)
    ensures Spell([k, l, m]) == Escape(k) + "." + Escape(l) + "." + Escape(m)
  {
    assert [k, l, m][1..] == [l, m];
    SpellTwo(l, m);
    assert Escape(k) + "." + (Escape(l) + "." + Escape(m)) == Escape(k) + "." + Escape(l) + "." + Escape(m);
  }

  /** One escaped character is collected as it is. */
  lemma SplitEscapedChar(c: char, tail: string, current: string)
    ensures SplitFrom(EscapeChar(c) + tail, current, false) == SplitFrom(tail, current + [c], false)
  {
    if c == '.' || c == '\\' {
      assert (['\\', c] + tail)[1..] == [c] + tail;
    }
    assert ([c] + tail)[1..] == tail;
  }

  lemma {:induction false} SplitEscaped(key: string, rest: string, current: string)
    ensures SplitFrom(Escape(key) + rest, current, false) == SplitFrom(rest, current + key, false)
    decreases |key|
  {
    if key == "" {
      assert Escape(key) + rest == rest && current + key == current;
    } else {
      var tail := Escape(key[1..]) + rest;
      assert Escape(key) + rest == EscapeChar(key[0]) + tail;
      SplitEscapedChar(key[0], tail, current);
      SplitEscaped(key[1..], rest, current + [key[0]]);
      assert current + [key[0]] + key[1..] == current + key;
    }
  }

  /** Splitting inverts spelling for every list of non-empty keys, whatever characters they hold. */
  lemma {:induction false} SplitSpell(keys: Path)
    requires NonEmpty(keys)
    ensures Split(Spell(keys)) == keys
    decreases |keys|
  {
    if keys == [] {
    } else if |keys| == 1 {
      SplitEscaped(keys[0], "", "");
      assert Escape(keys[0]) + "" == Escape(keys[0]) && "" + keys[0] == keys[0];
    } else {
      var rest := "." + Spell(keys[1..]);
      SplitEscaped(keys[0], rest, "");
      assert Spell(keys) == Escape(keys[0]) + rest && "" + keys[0] == keys[0];
      assert rest[1..] == Spell(keys[1..]);
      SplitSpell(keys[1..]);
    }
  }

  lemma {:induction false} EscapeHasNoLeadingDot(key: string)
    requires key != ""
    ensures Escape(key) != "" && Escape(key)[0] != '.'
  {
  }

  /** A location has a field path, with or without the leading dot, and that path names exactly it. */
  lemma PartsSpell(keys: Path)
    requires NonEmpty(keys)
    ensures Parts(Spell(keys)) == keys
    ensures Parts("." + Spell(keys)) == keys
  {
    SplitSpell(keys);
    if keys != [] {
      EscapeHasNoLeadingDot(keys[0]);
    }
    assert TrimDot(Spell(keys)) == Spell(keys);
    assert TrimDot("." + Spell(keys)) == Spell(keys);
  }

  lemma {:induction false} SplitFromKeys(path: string, current: string, escaped: bool)
    ensures NonEmpty(SplitFrom(path, current, escaped))
    decreases |path|
  {
    if path == [] {
    } else if escaped {
      SplitFromKeys(path[1..], current + [path[0]], false);
    } else if path[0] == '\\' {
      SplitFromKeys(path[1..], current, true);
    } else if path[0] == '.' {
      SplitFromKeys(path[1..], "", false);
    } else {
      SplitFromKeys(path[1..], current + [path[0]], false);
    }
  }

  /** Every field path can be rewritten to the spelling of the location it names. */
  lemma SpellingIsCanonical(path: string)
    ensures NonEmpty(Parts(path))
    ensures Parts(Spell(Parts(path))) == Parts(path)
  {
    SplitFromKeys(TrimDot(path), "", false);
    PartsSpell(Parts(path));
  }

  // ---------------------------------------------------------------- any spelling whatever

  /** The text ends in a backslash that takes the next character literally. */
  predicate Dangling(text: string)
    decreases |text|
  {
    text != "" && if text[0] == '\\' then |text| == 1 || Dangling(text[2..]) else Dangling(text[1..])
  }

  /** Some dot of the text is not taken literally. */
  predicate HasBareDot(text: string)
    decreases |text|
  {
    text != "" &&
    if text[0] == '\\' then |text| > 1 && HasBareDot(text[2..]) else text[0] == '.' || HasBareDot(text[1..])
  }

  /** Every backslash gives way to the character after it; one at the very end is dropped. */
  function Unescaped(text: string): string
    decreases |text|
  {
    if text == "" || text == "\\" then ""
    else if text[0] == '\\' then [text[1]] + Unescaped(text[2..])
    else [text[0]] + Unescaped(text[1..])
  }

  lemma SplitBackslash(c: char, tail: string, current: string)
    ensures SplitFrom(['\\', c] + tail, current, false) == SplitFrom(tail, current + [c], false)
  {
    assert (['\\', c] + tail)[1..] == [c] + tail;
    assert ([c] + tail)[1..] == tail;
  }

  lemma {:induction false} SplitKey(text: string, current: string)
    requires !HasBareDot(text)
    ensures SplitFrom(text, current, false) == Flush(current + Unescaped(text))
    decreases |text|
  {
    if text == "" {
      assert current + "" == current;
    } else if text[0] == '\\' {
      if |text| == 1 {
        assert text == "\\" && text[1..] == "";
        assert current + "" == current;
      } else {
        assert text == ['\\', text[1]] + text[2..];
        SplitBackslash(text[1], text[2..], current);
        SplitKey(text[2..], current + [text[1]]);
        assert current + [text[1]] + Unescaped(text[2..]) == current + ([text[1]] + Unescaped(text[2..]));
      }
    } else {
      SplitKey(text[1..], current + [text[0]]);
      assert current + [text[0]] + Unescaped(text[1..]) == current + ([text[0]] + Unescaped(text[1..]));
    }
  }

  lemma {:induction false} SplitFromDot(a: string, b: string, current: string)
    requires !Dangling(a)
    ensures SplitFrom(a + "." + b, current, false) == SplitFrom(a, current, false) + Split(b)
    decreases |a|
  {
    if a == "" {
      assert (a + "." + b)[1..] == b;
    } else if a[0] == '\\' {
      assert a == ['\\', a[1]] + a[2..];
      assert a + "." + b == ['\\', a[1]] + (a[2..] + "." + b);
      SplitBackslash(a[1], a[2..] + "." + b, current);
      SplitBackslash(a[1], a[2..], current);
      SplitFromDot(a[2..], b, current + [a[1]]);
    } else {
      assert (a + "." + b)[1..] == a[1..] + "." + b;
      if a[0] == '.' {
        SplitFromDot(a[1..], b, "");
        assert Flush(current) + (SplitFrom(a[1..], "", false) + Split(b)) ==
               Flush(current) + SplitFrom(a[1..], "", false) + Split(b);
      } else {
        SplitFromDot(a[1..], b, current + [a[0]]);
      }
    }
  }

  /** Splitting any text: a dot that is not escaped parts it in two, and what has no such dot is one key, without its
      escapes, or none if nothing is left of it. */
  lemma SplitExact(a: string, b: string)
    ensures !Dangling(a) ==> Split(a + "." + b) == Split(a) + Split(b)
    ensures !HasBareDot(a) ==> Split(a) == if Unescaped(a) == "" then [] else [Unescaped(a)]
  {
    if !Dangling(a) {
      SplitFromDot(a, b, "");
    }
    if !HasBareDot(a) {
      SplitKey(a, "");
      assert "" + Unescaped(a) == Unescaped(a);
    }
  }
}
