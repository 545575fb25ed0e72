/**
 The per-file set of numbers already stored: the duplicate filter of server_basics.go,
 printing a set in map iteration order, and rebuilding it from the printed file.
 */
module PrimeSets {
  import opened Base
  import opened NumberText

  function SetOf(ns: seq<uint64>): set<uint64> {
    set n | n in ns
  }

  lemma SetOfSnoc(ns: seq<uint64>, n: uint64)
    ensures SetOf(ns + [n]) == SetOf(ns) + {n}
  {
  }

  /** order is one of the iteration orders of a map with key set s. */
  ghost predicate IsOrderOf(order: seq<uint64>, s: set<uint64>) {
    NoRepeats(order) && SetOf(order) == s
  }

  /** The set of a file, empty when there is none. */
  function SetFor(sets: map<string, set<uint64>>, name: string): set<uint64> {
    if name in sets then sets[name] else {}
  }

  /** The numbers stored in a file. */
  function Stored(text: string): set<uint64> {
    SetOf(Parsed(text))
  }

  /** No number is stored twice in a file. */
  ghost predicate RepeatFree(text: string) {
    NoRepeats(Parsed(text))
  }

  /** The file holds exactly these numbers, each once. */
  ghost predicate Printed(text: string, numbers: set<uint64>) {
    Stored(text) == numbers && RepeatFree(text)
  }

  lemma StoredDigits(n: uint64)
    ensures Stored(Digits(n)) == {n}
  {
    ParsedDigits(n);
  }

  class FilePrimeSet {
    var members: set<uint64>

    constructor (initial: set<uint64>)
      ensures members == initial
    {
      members := initial;
    }
  }

  /** The numbers that are not in seen and do not occur earlier in the list. */
  function NewNumbers(primes: seq<uint64>, seen: set<uint64>): seq<uint64> {
    if primes == [] then []
    else
      var front, p := primes[..|primes| - 1], primes[|primes| - 1];
      if p in seen || p in front then NewNumbers(front, seen) else NewNumbers(front, seen) + [p]
  }

  /** Adds the numbers to the set in place and returns those that were not there. */
  method FilterUniquePrimes(primes: seq<uint64>, primeSet: FilePrimeSet) returns (unique: seq<uint64>)
    modifies primeSet
    ensures primeSet.members == old(primeSet.members) + SetOf(primes)
    ensures unique == NewNumbers(primes, old(primeSet.members))
  {
    unique := [];
    for i := 0 to |primes|
      invariant primeSet.members == old(primeSet.members) + SetOf(primes[..i])
      invariant unique == NewNumbers(primes[..i], old(primeSet.members))
    {
      var p := primes[i];
      assert primes[..i + 1] == primes[..i] + [p];
      assert primes[..i + 1][..i] == primes[..i];
      if p !in primeSet.members {
        primeSet.members := primeSet.members + {p};
        unique := unique + [p];
      }
    }
    assert primes[..|primes|] == primes;
  }

  lemma {:induction false} NewNumbersAreNew(primes: seq<uint64>, seen: set<uint64>)
    ensures IsOrderOf(NewNumbers(primes, seen), SetOf(primes) - seen)
  {
    if primes == [] {
    } else {
      var front, p := primes[..|primes| - 1], primes[|primes| - 1];
      NewNumbersAreNew(front, seen);
      assert primes == front + [p];
      SetOfSnoc(front, p);
      SetOfSnoc(NewNumbers(front, seen), p);
      assert p in NewNumbers(front, seen) <==> p in SetOf(front) - seen;
    }
  }

  /** Prints the keys of a map in the order in which the iteration meets them. */
  method PrintInOrder(order: seq<uint64>) returns (buf: string)
    ensures buf == Lines(order)
  {
    buf := "";
    for i := 0 to |order|
      invariant buf == Lines(order[..i])
    {
      assert order[..i + 1][..i] == order[..i];
      buf := buf + Line(order[i]);
    }
    assert order[..|order|] == order;
  }

  /** The set of the numbers in a file's text. */
  method LoadSet(data: string) returns (newSet: FilePrimeSet)
    ensures fresh(newSet) && newSet.members == Stored(data)
  {
    newSet := new FilePrimeSet({});
    var primes := ParseNumbers(data);
    for i := 0 to |primes|
      invariant fresh(newSet) && newSet.members == SetOf(primes[..i])
    {
      assert primes[..i + 1] == primes[..i] + [primes[i]];
      newSet.members := newSet.members + {primes[i]};
    }
    assert primes[..|primes|] == primes;
  }

  /** Whatever the iteration order, a printed set parses to itself, each number once. */
  lemma PrintedSet(order: seq<uint64>, s: set<uint64>)
    requires IsOrderOf(order, s)
    ensures Printed(Lines(order), s)
  {
    ParseInvertsPrint(order);
  }

  /** Some iteration order of s. */
  ghost function AnyOrder(s: set<uint64>): (order: seq<uint64>)
    ensures IsOrderOf(order, s)
  {
    if s == {} then []
    else
      var n :| n in s;
      var rest := AnyOrder(s - {n});
      assert n !in SetOf(rest);
      SetOfSnoc(rest, n);
      rest + [n]
  }
}
