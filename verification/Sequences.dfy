/** Prefixes and suffixes of lists that may be shorter than asked for, as Python and SQL cut them. */
module Sequences {

  function Take<T>(s: seq<T>, n: nat): seq<T> { if n <= |s| then s[..n] else s }

  function Drop<T>(s: seq<T>, n: nat): seq<T> { if n <= |s| then s[n..] else [] }
}
