/**
 * `order: [["name", "ASC"]]` on SQLite: text compares by its UTF-8 bytes,
 * which orders strings as their code points do. Rows with equal names may
 * come out in any order; the sort below keeps table order among them.
 */
module NameOrder {

  /** Lexicographic `a <= b` on code points. */
  predicate NameLe(a: string, b: string)
  {
    if a == [] then true
    else if b == [] then false
    else if a[0] != b[0] then a[0] < b[0]
    else NameLe(a[1..], b[1..])
  }

  lemma {:induction false} NameLeTotal(a: string, b: string)
    ensures NameLe(a, b) || NameLe(b, a)
  {
    if a != [] && b != [] && a[0] == b[0] {
      NameLeTotal(a[1..], b[1..]);
    }
  }

  lemma {:induction false} NameLeTransitive(a: string, b: string, c: string)
    requires NameLe(a, b) && NameLe(b, c)
    ensures NameLe(a, c)
  {
    if a != [] && b != [] && c != [] && a[0] == b[0] && b[0] == c[0] {
      NameLeTransitive(a[1..], b[1..], c[1..]);
    }
  }

  ghost predicate SortedBy<T>(s: seq<T>, name: T -> string)
  {
    forall i, j :: 0 <= i < j < |s| ==> NameLe(name(s[i]), name(s[j]))
  }

  /** Places `x` before the first element whose name is greater. */
  function InsertByName<T>(x: T, s: seq<T>, name: T -> string): (r: seq<T>)
    requires SortedBy(s, name)
    ensures multiset(r) == multiset(s) + multiset{x}
    ensures SortedBy(r, name)
  {
    if s == [] then [x]
    else if NameLe(name(x), name(s[0])) then
      forall i | 0 <= i < |s|
        ensures NameLe(name(x), name(s[i]))
      {
        if i > 0 { NameLeTransitive(name(x), name(s[0]), name(s[i])); }
      }
      [x] + s
    else
      NameLeTotal(name(x), name(s[0]));
      var rest := InsertByName(x, s[1..], name);
      assert s == [s[0]] + s[1..];
      assert forall y :: y in multiset(rest) ==> y == x || y in multiset(s[1..]);
      forall j | 0 <= j < |rest|
        ensures NameLe(name(s[0]), name(rest[j]))
      {
        assert rest[j] in multiset(rest);
        if rest[j] != x {
          var k :| 0 <= k < |s[1..]| && s[1..][k] == rest[j];
          assert s[k + 1] == rest[j];
        }
      }
      [s[0]] + rest
  }

  /** Insertion sort by name: the result is ordered and is a permutation of the input. */
  function SortByName<T>(s: seq<T>, name: T -> string): (r: seq<T>)
    ensures multiset(r) == multiset(s)
    ensures SortedBy(r, name)
  {
    if s == [] then []
    else
      assert s == [s[0]] + s[1..];
      InsertByName(s[0], SortByName(s[1..], name), name)
  }
}
