/** The reuse history of account passwords: what is recorded, what is trimmed, and which passwords are refused. */
module PasswordHistory {

  /** Does the password fit the hash? */
  type Verifier = (string, string) -> bool

  predicate Fits(validate: Verifier, password: string, hash: string) {
    hash != "" && validate(password, hash)
  }

  /** The password fits one of the first `n` hashes. */
  predicate FitsOneOf(validate: Verifier, password: string, hashes: seq<string>, n: int) {
    exists i :: 0 <= i < n && i < |hashes| && Fits(validate, password, hashes[i])
  }

  /** The current hash and the latest `depth` before it are refused; a depth of zero switches the history off. */
  predicate IsReused(validate: Verifier, depth: int, current: string, recent: seq<string>, password: string) {
    && depth > 0 && password != ""
    && (Fits(validate, password, current) || FitsOneOf(validate, password, recent, depth))
  }

  /** The history, newest first, with one more hash; no more than `depth` are kept. */
  function Recorded(depth: int, recent: seq<string>, id: nat, current: string): seq<string> {
    if depth <= 0 || id == 0 || current == "" then recent
    else
      var grown := [current] + recent;
      if |grown| <= depth then grown else grown[..depth]
  }

  class History {
    const depth: int
    const validate: Verifier
    var entries: map<nat, seq<string>>

    constructor (depth: int, validate: Verifier)
      ensures this.depth == depth && this.validate == validate && entries == map[]
    {
      this.depth, this.validate, this.entries := depth, validate, map[];
    }

    function Of(id: nat): seq<string>
      reads this
    {
      if id in entries then entries[id] else []
    }

    method IsReuse(id: nat, current: string, password: string) returns (reuse: bool)
      ensures reuse == IsReused(validate, depth, current, Of(id), password)
    {
      if depth <= 0 || password == "" {
        return false;
      }
      if current != "" && validate(password, current) {
        return true;
      }
      var hashes := Of(id);
      var examined := 0;
      while examined < |hashes| && examined < depth
        invariant 0 <= examined <= |hashes|
        invariant !FitsOneOf(validate, password, hashes, examined)
      {
        if hashes[examined] != "" && validate(password, hashes[examined]) {
          assert Fits(validate, password, hashes[examined]);
          return true;
        }
        examined := examined + 1;
      }
      return false;
    }

    /** Records the hash that is about to be replaced, and deletes what is then beyond the depth. */
    method Record(id: nat, current: string)
      modifies this
      ensures Of(id) == Recorded(depth, old(Of(id)), id, current)
      ensures forall other :: other != id ==> Of(other) == old(Of(other))
    {
      if depth <= 0 || id == 0 || current == "" {
        return;
      }
      var hashes := [current] + Of(id);
      ghost var grown := hashes;
      while |hashes| > depth
        invariant hashes == if |hashes| < |grown| then grown[..|hashes|] else grown
        invariant |hashes| <= |grown| && (if |grown| > depth then |hashes| >= depth else hashes == grown)
      {
        hashes := hashes[..|hashes| - 1];
      }
      entries := entries[id := hashes];
    }
  }

  // ---------- runs of changes of one account ----------

  /** A change that is asked for: the password, its hash, and whether the policy allows it. */
  datatype Change = Change(password: string, hash: string, allowed: bool)

  /** What the server holds for a stored account. */
  datatype Book = Book(current: string, recent: seq<string>)

  predicate IsAccepted(validate: Verifier, depth: int, book: Book, c: Change) {
    c.allowed && !IsReused(validate, depth, book.current, book.recent, c.password)
  }

  function Changed(validate: Verifier, depth: int, id: nat, book: Book, c: Change): Book {
    if !IsAccepted(validate, depth, book, c) then book
    else Book(c.hash, Recorded(depth, book.recent, id, book.current))
  }

  function AfterAll(validate: Verifier, depth: int, id: nat, changes: seq<Change>): Book {
    if changes == [] then Book("", [])
    else
      var n := |changes| - 1;
      Changed(validate, depth, id, AfterAll(validate, depth, id, changes[..n]), changes[n])
  }

  /** The hashes of the accepted changes, in order. */
  function Chain(validate: Verifier, depth: int, id: nat, changes: seq<Change>): seq<string> {
    if changes == [] then []
    else
      var n := |changes| - 1;
      Chain(validate, depth, id, changes[..n])
      + if IsAccepted(validate, depth, AfterAll(validate, depth, id, changes[..n]), changes[n]) then [changes[n].hash]
        else []
  }

  /** The book holds the end of the chain: the last hash, and up to `depth` before it, newest first. */
  ghost predicate HoldsEnd(depth: int, book: Book, chain: seq<string>) {
    && (forall i :: 0 <= i < |chain| ==> chain[i] != "")
    && book.current == (if chain == [] then "" else chain[|chain| - 1])
    && |book.recent| == (if |chain| - 1 <= depth then (if chain == [] then 0 else |chain| - 1) else depth)
    && forall i :: 0 <= i < |book.recent| ==> book.recent[i] == chain[|chain| - 2 - i]
  }

  lemma {:induction false} BookHoldsEnd(validate: Verifier, depth: int, id: nat, changes: seq<Change>)
    requires depth > 0 && id > 0 && forall i :: 0 <= i < |changes| ==> changes[i].hash != ""
    ensures HoldsEnd(depth, AfterAll(validate, depth, id, changes), Chain(validate, depth, id, changes))
  {
    if changes != [] {
      var n := |changes| - 1;
      BookHoldsEnd(validate, depth, id, changes[..n]);
      EndMoves(depth, id, AfterAll(validate, depth, id, changes[..n]), Chain(validate, depth, id, changes[..n]),
               changes[n].hash);
    }
  }

  lemma {:induction false} EndMoves(depth: int, id: nat, book: Book, chain: seq<string>, hash: string)
    requires depth > 0 && id > 0 && hash != "" && HoldsEnd(depth, book, chain)
    ensures HoldsEnd(depth, Book(hash, Recorded(depth, book.recent, id, book.current)), chain + [hash])
  {
    var longer, recent := chain + [hash], Recorded(depth, book.recent, id, book.current);
    forall i | 0 <= i < |recent|
      ensures recent[i] == longer[|longer| - 2 - i]
    {
      assert recent[i] == if i == 0 then book.current else book.recent[i - 1];
    }
  }

  /** The password fits one of the last `depth + 1` hashes of the chain. */
  ghost predicate IsRecent(validate: Verifier, depth: int, password: string, chain: seq<string>) {
    exists i :: 0 <= i < |chain| && |chain| - 1 - depth <= i && validate(password, chain[i])
  }

  /**
   Over every run of changes of a stored account, a password is refused for reuse exactly when it fits one of
   the last `depth + 1` hashes that were accepted.
   */
  lemma {:induction false} RefusedIffRecent(validate: Verifier, depth: int, id: nat, changes: seq<Change>,
                                            password: string)
    requires depth > 0 && id > 0 && password != "" && forall i :: 0 <= i < |changes| ==> changes[i].hash != ""
    ensures var book := AfterAll(validate, depth, id, changes);
            IsReused(validate, depth, book.current, book.recent, password)
            <==> IsRecent(validate, depth, password, Chain(validate, depth, id, changes))
  {
    BookHoldsEnd(validate, depth, id, changes);
    EndDecides(validate, depth, AfterAll(validate, depth, id, changes), Chain(validate, depth, id, changes), password);
  }

  lemma {:induction false} EndDecides(validate: Verifier, depth: int, book: Book, chain: seq<string>, password: string)
    requires depth > 0 && password != "" && HoldsEnd(depth, book, chain)
    ensures IsReused(validate, depth, book.current, book.recent, password)
            <==> IsRecent(validate, depth, password, chain)
  {
    if IsRecent(validate, depth, password, chain) {
      var i :| 0 <= i < |chain| && |chain| - 1 - depth <= i && validate(password, chain[i]);
      if i < |chain| - 1 {
        assert book.recent[|chain| - 2 - i] == chain[i];
        assert Fits(validate, password, book.recent[|chain| - 2 - i]);
      }
    }
    if Fits(validate, password, book.current) {
      assert validate(password, chain[|chain| - 1]);
    } else if FitsOneOf(validate, password, book.recent, depth) {
      var j :| 0 <= j < depth && j < |book.recent| && Fits(validate, password, book.recent[j]);
      assert validate(password, chain[|chain| - 2 - j]);
    }
  }


  /** Without a depth there is no history; an account that was never saved has none; an empty password is no reuse. */
  lemma {:induction false} HistoryOff(validate: Verifier, depth: int, id: nat, book: Book, c: Change)
    ensures c.allowed && depth <= 0 ==> Changed(validate, depth, id, book, c) == Book(c.hash, book.recent)
    ensures c.allowed && c.password == "" ==> Changed(validate, depth, id, book, c).current == c.hash
    ensures id == 0 || book.current == "" ==> Changed(validate, depth, id, book, c).recent == book.recent
    ensures !c.allowed ==> Changed(validate, depth, id, book, c) == book
  {
  }
}
