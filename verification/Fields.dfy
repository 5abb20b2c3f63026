/**
Sequences made of fields with a separator between them: splitting undoes joining where no field holds the separator, and
joining undoes splitting everywhere. Paths, staging names and the lines of cookie files are such sequences.
*/
module Fields {
  function Split<T(==)>(s: seq<T>, separator: T): (fields: seq<seq<T>>)
    ensures fields != []
  {
    if s == [] then [[]]
    else
      var rest := Split(s[1..], separator);
      if s[0] == separator then [[]] + rest else [[s[0]] + rest[0]] + rest[1..]
  }

  function Join<T>(fields: seq<seq<T>>, separator: T): seq<T>
    requires fields != []
  {
    if |fields| == 1 then fields[0] else fields[0] + [separator] + Join(fields[1..], separator)
  }

  lemma {:induction false} SplitFields<T>(s: seq<T>, separator: T)
    ensures Join(Split(s, separator), separator) == s
    ensures forall i :: 0 <= i < |Split(s, separator)| ==> separator !in Split(s, separator)[i]
  {
    if s != [] {
      var rest := Split(s[1..], separator);
      SplitFields(s[1..], separator);
      if s[0] == separator {
        assert ([[]] + rest)[1..] == rest;
        assert s == [] + [separator] + s[1..];
      } else {
        assert ([[s[0]] + rest[0]] + rest[1..])[1..] == rest[1..];
        assert s == [s[0]] + s[1..];
        if |rest| > 1 {
          assert [s[0]] + rest[0] + [separator] + Join(rest[1..], separator) ==
                 [s[0]] + (rest[0] + [separator] + Join(rest[1..], separator));
        }
      }
    }
  }

  lemma {:induction false} SplitOnce<T>(field: seq<T>, rest: seq<T>, separator: T)
    requires separator !in field
    ensures Split(field + [separator] + rest, separator) == [field] + Split(rest, separator)
    ensures Split(field, separator) == [field]
  {
    var s := field + [separator] + rest;
    if field == [] {
      assert s[1..] == rest;
    } else {
      SplitOnce(field[1..], rest, separator);
      assert s[1..] == field[1..] + [separator] + rest;
      assert [field[0]] + field[1..] == field;
    }
  }

  /** Joining loses nothing as long as no field holds the separator. */
  lemma {:induction false} SplitJoined<T>(fields: seq<seq<T>>, separator: T)
    requires fields != [] && forall i :: 0 <= i < |fields| ==> separator !in fields[i]
    ensures Split(Join(fields, separator), separator) == fields
  {
    if |fields| == 1 {
      SplitOnce(fields[0], [], separator);
    } else {
      SplitOnce(fields[0], Join(fields[1..], separator), separator);
      SplitJoined(fields[1..], separator);
    }
  }

  /** Splitting makes up no elements. */
  lemma {:induction false} SplitContents<T>(s: seq<T>, separator: T, x: T)
    requires x !in s
    ensures forall i :: 0 <= i < |Split(s, separator)| ==> x !in Split(s, separator)[i]
  {
    if s != [] {
      SplitContents(s[1..], separator, x);
    }
  }
}
