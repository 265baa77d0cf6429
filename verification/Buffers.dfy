/** The growing character buffers of the XML code. */
module Buffers {
  const BUFSIZE := 1024

  /** Grows the buffer by fixed steps until `need` characters fit behind the first `len`. */
  method Reserve(u: array<char>, len: nat, need: nat) returns (v: array<char>)
    requires len <= u.Length
    ensures v.Length >= len + need && v.Length >= u.Length && v[..u.Length] == u[..]
    ensures v[..len] == u[..len]
    ensures v == u || fresh(v)
  {
    v := u;
    while len + need > v.Length
      invariant u.Length <= v.Length && v[..u.Length] == u[..]
      invariant v == u || fresh(v)
      decreases len + need - v.Length
    {
      v := Realloc(v, v.Length + BUFSIZE);
    }
    assert v[..len] == v[..u.Length][..len] == u[..len];
  }

  /** A new buffer of `max` characters with as much of the old contents as fits. */
  method Realloc(u: array<char>, max: nat) returns (v: array<char>)
    ensures fresh(v) && v.Length == max
    ensures v[..if u.Length < max then u.Length else max] == u[..if u.Length < max then u.Length else max]
  {
    var n := if u.Length < max then u.Length else max;
    v := new char[max];
    for i := 0 to n
      invariant v[..i] == u[..i]
    {
      v[i] := u[i];
    }
  }
}
