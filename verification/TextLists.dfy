/** Lists of strings kept in one string: strings.Join and strings.Split with a one-character separator. */
module TextLists {

  function Join(parts: seq<string>, sep: char): string {
    if parts == [] then ""
    else if |parts| == 1 then parts[0]
    else parts[0] + [sep] + Join(parts[1..], sep)
  }

  function Split(text: string, sep: char): (parts: seq<string>)
    ensures |parts| > 0
  {
    if text == "" then [""]
    else
      var rest := Split(text[1..], sep);
      if text[0] == sep then [""] + rest
      else [[text[0]] + rest[0]] + rest[1..]
  }

  function Count(text: string, c: char): nat {
    if text == "" then 0 else (if text[0] == c then 1 else 0) + Count(text[1..], c)
  }

  function Total(parts: seq<string>, c: char): nat {
    if parts == [] then 0 else Count(parts[0], c) + Total(parts[1..], c)
  }

  lemma {:induction false} CountConcat(a: string, b: string, c: char)
    ensures Count(a + b, c) == Count(a, c) + Count(b, c)
  {
    if a == "" {
      assert a + b == b;
    } else {
      assert (a + b)[1..] == a[1..] + b;
      CountConcat(a[1..], b, c);
    }
  }

  lemma {:induction false} CountIn(a: string, c: char)
    ensures Count(a, c) == 0 <==> c !in a
  {
    if a == "" {
    } else {
      CountIn(a[1..], c);
      assert c in a <==> a[0] == c || c in a[1..];
    }
  }

  lemma {:induction false} TotalIn(parts: seq<string>, c: char)
    ensures Total(parts, c) == 0 <==> forall i | 0 <= i < |parts| :: c !in parts[i]
  {
    if parts == [] {
    } else {
      CountIn(parts[0], c);
      TotalIn(parts[1..], c);
      assert forall i | 1 <= i < |parts| :: parts[i] == parts[1..][i - 1];
    }
  }

  lemma {:induction false} JoinCount(parts: seq<string>, sep: char)
    ensures Count(Join(parts, sep), sep) == Total(parts, sep) + (if parts == [] then 0 else |parts| - 1)
  {
    if |parts| <= 1 {
    } else {
      var rest := Join(parts[1..], sep);
      JoinCount(parts[1..], sep);
      assert Join(parts, sep) == parts[0] + ([sep] + rest);
      CountConcat(parts[0], [sep] + rest, sep);
      assert ([sep] + rest)[1..] == rest;
    }
  }

  lemma {:induction false} SplitCount(text: string, sep: char)
    ensures |Split(text, sep)| == 1 + Count(text, sep)
  {
    if text == "" {
    } else {
      SplitCount(text[1..], sep);
    }
  }

  lemma {:induction false} SplitFirst(a: string, rest: string, sep: char)
    requires sep !in a
    ensures Split(a + [sep] + rest, sep) == [a] + Split(rest, sep)
    ensures Split(a, sep) == [a]
  {
    if a == "" {
      assert (a + [sep] + rest)[1..] == rest;
    } else {
      assert (a + [sep] + rest)[1..] == a[1..] + [sep] + rest;
      assert [a[0]] + a[1..] == a;
      SplitFirst(a[1..], rest, sep);
    }
  }

  lemma {:induction false} SplitJoin(parts: seq<string>, sep: char)
    requires parts != [] && forall i | 0 <= i < |parts| :: sep !in parts[i]
    ensures Split(Join(parts, sep), sep) == parts
  {
    if |parts| == 1 {
      SplitFirst(parts[0], "", sep);
    } else {
      SplitFirst(parts[0], Join(parts[1..], sep), sep);
      SplitJoin(parts[1..], sep);
    }
  }

  /** Joining two lists joins their joins. */
  lemma {:induction false} JoinConcat(a: seq<string>, b: seq<string>, sep: char)
    requires a != [] && b != []
    ensures Join(a + b, sep) == Join(a, sep) + [sep] + Join(b, sep)
    ensures |a| == 1 ==> Join(a, sep) == a[0]
    decreases |a|
  {
    if |a| == 1 {
      assert (a + b)[1..] == b;
    } else {
      assert (a + b)[1..] == a[1..] + b;
      JoinConcat(a[1..], b, sep);
      assert a[0] + [sep] + (Join(a[1..], sep) + [sep] + Join(b, sep)) ==
             a[0] + [sep] + Join(a[1..], sep) + [sep] + Join(b, sep);
    }
  }

  /** Splitting gives the list back exactly when it is not empty and no entry holds the separator. */
  lemma SplitJoinIff(parts: seq<string>, sep: char)
    ensures Split(Join(parts, sep), sep) == parts <==>
      parts != [] && forall i | 0 <= i < |parts| :: sep !in parts[i]
  {
    JoinCount(parts, sep);
    SplitCount(Join(parts, sep), sep);
    TotalIn(parts, sep);
    if parts != [] && Total(parts, sep) == 0 {
      SplitJoin(parts, sep);
    }
  }

  // ---------------------------------------------------------------- sorting

  /** The order of sort.Strings: character by character, a prefix first. */
  predicate Before(a: string, b: string) {
    b != "" && (a == "" || a[0] < b[0] || (a[0] == b[0] && Before(a[1..], b[1..])))
  }

  lemma {:induction false} BeforeTotal(a: string, b: string)
    ensures a == b || Before(a, b) || Before(b, a)
    ensures !(Before(a, b) && (a == b || Before(b, a)))
  {
    if a == "" || b == "" {
    } else {
      BeforeTotal(a[1..], b[1..]);
      assert a == [a[0]] + a[1..] && b == [b[0]] + b[1..];
    }
  }

  lemma {:induction false} BeforeTransitive(a: string, b: string, c: string)
    requires Before(a, b) && Before(b, c)
    ensures Before(a, c)
  {
    if a == "" {
    } else if a[0] == b[0] == c[0] {
      BeforeTransitive(a[1..], b[1..], c[1..]);
    }
  }

  /** The texts part at `i`, where the first has the smaller character. */
  predicate SmallerAt(a: string, b: string, i: nat) {
    i < |a| && i < |b| && a[..i] == b[..i] && a[i] < b[i]
  }

  lemma PartsLater(a: string, b: string, i: nat)
    requires SmallerAt(a, b, i)
    ensures i > 0 ==> a[0] == b[0]
  {
    if i > 0 {
      assert a[..i][0] == b[..i][0];
    }
  }

  /** The order in full: a proper prefix comes first, and otherwise the first character that differs decides. */
  lemma {:induction false} BeforeIff(a: string, b: string)
    ensures Before(a, b) <==> a < b || exists i :: SmallerAt(a, b, i)
  {
    if a == "" || b == "" {
    } else if a[0] != b[0] {
      assert SmallerAt(a, b, 0) <==> a[0] < b[0];
      forall i: nat | SmallerAt(a, b, i)
        ensures i == 0
      {
        PartsLater(a, b, i);
      }
    } else {
      BeforeIff(a[1..], b[1..]);
      assert a == [a[0]] + a[1..] && b == [b[0]] + b[1..];
      forall i: nat
        ensures SmallerAt(a, b, i + 1) <==> SmallerAt(a[1..], b[1..], i)
      {
        if i < |a| - 1 && i < |b| - 1 {
          assert a[..i + 1] == [a[0]] + a[1..][..i] && b[..i + 1] == [b[0]] + b[1..][..i];
        }
      }
      forall i: nat | SmallerAt(a, b, i)
        ensures i > 0 && SmallerAt(a[1..], b[1..], i - 1)
      {
        assert SmallerAt(a, b, i - 1 + 1);
      }
    }
  }

  predicate IsFirst(s: set<string>, k: string) {
    k in s && forall x | x in s :: x == k || Before(k, x)
  }

  lemma {:induction false} FirstExists(s: set<string>)
    requires s != {}
    ensures exists k :: IsFirst(s, k)
    decreases s
  {
    var k :| k in s;
    var rest := s - {k};
    assert forall x :: x in s ==> x == k || x in rest;
    if rest == {} {
      assert IsFirst(s, k);
    } else {
      FirstExists(rest);
      var f :| IsFirst(rest, f);
      BeforeTotal(k, f);
      if Before(k, f) {
        forall x | x in rest && x != f {
          BeforeTransitive(k, f, x);
        }
        assert IsFirst(s, k);
      } else {
        assert IsFirst(s, f);
      }
    }
  }

  lemma FirstUnique(s: set<string>)
    ensures forall k, l :: IsFirst(s, k) && IsFirst(s, l) ==> k == l
  {
    forall k, l | IsFirst(s, k) && IsFirst(s, l)
      ensures k == l
    {
      BeforeTotal(k, l);
    }
  }

  predicate Ascending(list: seq<string>) {
    forall i, j | 0 <= i < j < |list| :: Before(list[i], list[j])
  }

  /** The elements of a set in ascending order. */
  function Sorted(s: set<string>): (list: seq<string>)
    ensures Ascending(list)
    ensures forall x :: x in list <==> x in s
    decreases s
  {
    if s == {} then []
    else
      FirstExists(s);
      FirstUnique(s);
      var k :| k in s && IsFirst(s, k);
      [k] + Sorted(s - {k})
  }

  // ---------------------------------------------------------------- the changed_fields column

  function EncodeFields(fields: seq<string>): string {
    Join(fields, ',')
  }

  function DecodeFields(column: string): seq<string> {
    if column == "" then [] else Split(column, ',')
  }

  lemma {:induction false} JoinEmpty(parts: seq<string>, sep: char)
    ensures Join(parts, sep) == "" <==> parts == [] || parts == [""]
  {
  }

  /** The changed fields read back are those stored, unless one holds a comma or the only one is empty. */
  lemma FieldsRoundTrip(fields: seq<string>)
    ensures DecodeFields(EncodeFields(fields)) == fields <==>
      fields != [""] && forall i | 0 <= i < |fields| :: ',' !in fields[i]
  {
    JoinEmpty(fields, ',');
    SplitJoinIff(fields, ',');
  }
}
