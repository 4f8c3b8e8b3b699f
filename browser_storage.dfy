/** The browser facilities the client relies on: Web Storage areas
    (`localStorage` and `sessionStorage`) and `crypto.getRandomValues`. */
module BrowserStorage {
  import opened Wrappers
  import opened Octets

  /** A Web Storage area: string keys mapped to string values. */
  class Storage {
    var items: map<string, string>

    constructor ()
      ensures items == map[]
    {
      items := map[];
    }

    /** `getItem`: the stored value, or null. */
    function GetItem(key: string): (r: Option<string>)
      reads this
      ensures r.Some? <==> key in items
      ensures r.Some? ==> r.value == items[key]
    {
      if key in items then Some(items[key]) else None
    }

    /** `setItem`: adds the key or replaces its value. */
    method SetItem(key: string, value: string)
      modifies this
      ensures items == old(items)[key := value]
    {
      items := items[key := value];
    }

    /** `removeItem`: drops the key if present. */
    method RemoveItem(key: string)
      modifies this
      ensures items == old(items) - {key}
    {
      items := items - {key};
    }
  }

  /** `n` bytes of `stream` starting at position `from`. */
  function Drawn(stream: nat -> uint8, from: nat, n: nat): (r: Bytes)
    ensures |r| == n
  {
    seq(n, i requires 0 <= i < n => stream(from + i))
  }

  /** `crypto.getRandomValues`, modelled as a fixed stream of random bytes
      read from a moving position: every draw returns bytes from positions
      that no earlier draw has read. */
  class RandomSource {
    const stream: nat -> uint8
    var position: nat

    constructor (stream: nat -> uint8)
      ensures this.stream == stream && position == 0
    {
      this.stream := stream;
      position := 0;
    }

    /** Fills a fresh `Uint8Array(n)` with the next `n` random bytes. */
    method GetRandomValues(n: nat) returns (r: Bytes)
      modifies this
      ensures r == Drawn(stream, old(position), n)
      ensures position == old(position) + n
    {
      r := Drawn(stream, position, n);
      position := position + n;
    }
  }
}
