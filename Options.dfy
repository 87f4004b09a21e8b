/** Optional values, and the row-by-row inner join built on them: each row
    either yields a joined value or drops out. */
module Options {

  datatype Option<T> = None | Some(value: T)
  {
    function GetOr(default: T): T
    {
      if Some? then value else default
    }
  }

  /** The values `f` yields for the elements of `s`, in order; an element
      for which it yields nothing is dropped. */
  function Collect<T, U>(s: seq<T>, f: T -> Option<U>): seq<U>
  {
    if s == [] then []
    else (match f(s[0]) case None => [] case Some(x) => [x]) + Collect(s[1..], f)
  }

  /** A value is collected iff some element yields it. */
  lemma {:induction false} CollectMembers<T, U>(s: seq<T>, f: T -> Option<U>, x: U)
    ensures x in Collect(s, f) <==> exists e :: e in s && f(e) == Some(x)
  {
    if s != [] {
      CollectMembers(s[1..], f, x);
      assert s == [s[0]] + s[1..];
    }
  }
}
