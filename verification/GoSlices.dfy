/** Slices of the host language: views of shared, growable backing arrays. */
module GoSlices {

  /** A window on the front of a backing array that may grow up to cap; nil is a
      window of no capacity. */
  datatype GoSlice<T> = GoSlice(data: array<T>, len: nat, cap: nat) {
    predicate Valid() {
      len <= cap <= data.Length
    }

    function View(): (s: seq<T>)
      requires Valid()
      reads data
      ensures |s| == len
    {
      data[..len]
    }
  }

  /** append: writes behind the slice into its own array while the capacity lasts,
      and moves to a larger array otherwise. */
  method Append<T>(s: GoSlice<T>, xs: seq<T>) returns (r: GoSlice<T>)
    requires s.Valid()
    modifies s.data
    ensures r.Valid() && r.View() == old(s.View()) + xs && s.View() == old(s.View())
    ensures r.data == s.data || fresh(r.data)
    ensures forall j :: 0 <= j < s.data.Length && !(s.len <= j < s.len + |xs| <= s.cap) ==> s.data[j] == old(s.data[j])
  {
    if s.len + |xs| <= s.cap {
      var i := 0;
      while i < |xs|
        invariant i <= |xs|
        invariant forall j :: 0 <= j < s.data.Length && !(s.len <= j < s.len + i) ==> s.data[j] == old(s.data[j])
        invariant s.data[s.len..s.len + i] == xs[..i]
      {
        s.data[s.len + i] := xs[i];
        i := i + 1;
      }
      r := GoSlice(s.data, s.len + |xs|, s.cap);
    } else {
      var all, spare: nat := s.View() + xs, *;
      var data := new T[|all| + spare](i requires 0 <= i < |all| + spare => if i < |all| then all[i] else all[0]);
      r := GoSlice(data, |all|, |all| + spare);
    }
  }

  /** make and copy: an array of exactly the elements. */
  method CopyOf<T>(s: GoSlice<T>) returns (r: GoSlice<T>)
    requires s.Valid()
    ensures r.Valid() && r.View() == s.View() && fresh(r.data)
  {
    var all := s.View();
    var data := new T[|all|](i requires 0 <= i < |all| => all[i]);
    r := GoSlice(data, |all|, |all|);
  }
}
