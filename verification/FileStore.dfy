/** The transfer directory as a whole: what the process puts there, and what a start after a
    crash removes. */
module FileStore {
  import opened FileRace

  /** Entries of a directory by name, and whether each is a directory itself. */
  type Listing = map<string, bool>

  predicate LowerHexDigit(c: char) {
    'a' <= c <= 'f' || '0' <= c <= '9'
  }

  /** The pattern of session directories: 32 lower-case hexadecimal digits. */
  predicate ValidId(s: string) {
    |s| == 32 && forall i | 0 <= i < |s| :: LowerHexDigit(s[i])
  }

  type Byte = n: nat | n < 256

  const HEX := "0123456789abcdef"

  /** hex.EncodeToString. */
  function Hex(bytes: seq<Byte>): (r: string)
    ensures |r| == 2 * |bytes|
  {
    if bytes == [] then ""
    else
      [HEX[bytes[0] / 16], HEX[bytes[0] % 16]] + Hex(bytes[1..])
  }

  lemma {:induction false} HexIsHex(bytes: seq<Byte>)
    ensures forall i | 0 <= i < |Hex(bytes)| :: LowerHexDigit(Hex(bytes)[i])
  {
    if bytes != [] {
      HexIsHex(bytes[1..]);
      assert forall k | 0 <= k < 16 :: LowerHexDigit(HEX[k]);
    }
  }

  function ValueOf(c: char): (n: nat)
    requires LowerHexDigit(c)
    ensures n < 16 && HEX[n] == c
  {
    if c <= '9' then (c - '0') as nat else 10 + (c - 'a') as nat
  }

  lemma HexOfTwo(s: string, rest: seq<Byte>) returns (b: Byte)
    requires |s| == 2 && LowerHexDigit(s[0]) && LowerHexDigit(s[1])
    ensures Hex([b] + rest) == s + Hex(rest)
  {
    var high, low := ValueOf(s[0]), ValueOf(s[1]);
    b := 16 * high + low;
    assert b / 16 == high && b % 16 == low;
    assert ([b] + rest)[1..] == rest && s == [HEX[high], HEX[low]];
  }

  lemma {:induction false} HexIsAll(s: string) returns (bytes: seq<Byte>)
    requires |s| % 2 == 0 && forall i | 0 <= i < |s| :: LowerHexDigit(s[i])
    ensures Hex(bytes) == s
    decreases |s|
  {
    bytes := [];
    if s != "" {
      var rest := HexIsAll(s[2..]);
      hide Hex;
      var b := HexOfTwo(s[..2], rest);
      bytes := [b] + rest;
      assert s == s[..2] + s[2..];
    }
  }

  /** The names taken for session directories are those that the process gives them: sixteen
      random bytes in hexadecimal. */
  lemma IdsAreSixteenBytes(s: string)
    ensures ValidId(s) <==> exists bytes: seq<Byte> :: |bytes| == 16 && Hex(bytes) == s
  {
    if ValidId(s) {
      var bytes := HexIsAll(s);
    }
    if bytes: seq<Byte> :| |bytes| == 16 && Hex(bytes) == s {
      HexIsHex(bytes);
    }
  }

  const UPLOAD_PREFIX := "upload-"

  predicate Leftover(pending: Listing, name: string) {
    UPLOAD_PREFIX <= name && name in pending && !pending[name]
  }

  class FileStore {
    var base: Listing
    var pending: Listing

    /** newFileStore over what it finds on disk. stuck holds the names that cannot be removed. */
    constructor (base: Listing, pending: Listing)
      ensures this.base == base && this.pending == pending
    {
      this.base := base;
      this.pending := pending;
    }

    method Recover(stuck: set<string>) returns (ok: bool)
      modifies this
      ensures ok ==> base == map n | n in old(base) && !ValidId(n) :: old(base)[n]
      ensures ok ==> pending == map n | n in old(pending) && ("upload-" <= n ==> old(pending)[n]) :: old(pending)[n]
      ensures forall n | n in old(base) && !ValidId(n) :: n in base && base[n] == old(base)[n]
      ensures forall n | n in old(pending) && ("upload-" <= n ==> old(pending)[n]) ::
                n in pending && pending[n] == old(pending)[n]
      ensures (forall n | n in stuck :: n !in old(base) && n !in old(pending)) ==> ok
    {
      ghost var base0, pending0 := base, pending;
      var rest := base.Keys;
      while rest != {}
        invariant rest <= base.Keys && pending == pending0
        invariant base == map n | n in base0 && (n in rest || !ValidId(n)) :: base0[n]
      {
        var name :| name in rest;
        if ValidId(name) {
          if name in stuck {
            return false;
          }
          base := base - {name};
        }
        rest := rest - {name};
      }
      rest := pending.Keys;
      while rest != {}
        invariant rest <= pending.Keys && base == map n | n in base0 && !ValidId(n) :: base0[n]
        invariant pending == map n | n in pending0 && (n in rest || !Leftover(pending0, n)) :: pending0[n]
      {
        var name :| name in rest;
        if UPLOAD_PREFIX <= name && !pending[name] {
          if name in stuck {
            return false;
          }
          pending := pending - {name};
        }
        rest := rest - {name};
      }
      ok := true;
    }

    /** create: only a well-formed id gets a directory, and only if none is there. */
    method Create(id: string, opens: bool) returns (ok: bool)
      modifies this`base
      ensures ok <==> ValidId(id) && id !in old(base) && opens
      ensures base == if ok then old(base)[id := true] else old(base)
    {
      if !ValidId(id) || id in base {
        return false;
      }
      base := base[id := true];
      if !opens {
        base := base - {id};
        return false;
      }
      ok := true;
    }
  }

  // ----- A crash at any point -----

  /** What lies on disk if the process dies while its sessions are in the given states: the
      directories not yet removed, the temporary files not yet unlinked, and whatever others
      put there under names the process does not use. */
  ghost predicate DiskAfterCrash(sessions: map<string, Space>, suffix: (string, nat) -> string,
                                 foreign: Listing, foreignPending: Listing, base: Listing, pending: Listing) {
    && (forall id | id in sessions :: ValidId(id))
    && (forall n | n in foreign :: !ValidId(n))
    && (forall n | n in foreignPending :: "upload-" <= n ==> foreignPending[n])
    && (forall n :: n in base <==> n in foreign || (n in sessions && sessions[n].dir.Some?))
    && (forall n | n in foreign :: base[n] == foreign[n])
    && (forall n :: n in pending <==> n in foreignPending
                                      || exists id, a :: id in sessions && a in sessions[id].temps
                                                         && n == "upload-" + suffix(id, a))
    && (forall n | n in pending :: pending[n] == if n in foreignPending then foreignPending[n] else false)
  }

  /** Whatever the sessions were doing, a start that succeeds leaves exactly the entries of
      others: no session directory and no upload temporary survives. */
  method StartAfterCrash(sessions: map<string, Space>, suffix: (string, nat) -> string,
                         foreign: Listing, foreignPending: Listing, base: Listing, pending: Listing, stuck: set<string>)
    returns (store: FileStore, ok: bool)
    requires DiskAfterCrash(sessions, suffix, foreign, foreignPending, base, pending)
    ensures fresh(store) && (ok ==> store.base == foreign && store.pending == foreignPending)
  {
    store := new FileStore(base, pending);
    ok := store.Recover(stuck);
    if ok {
      forall n ensures n in store.base <==> n in foreign {
        if n in sessions { assert ValidId(n); }
      }
      forall n ensures n in store.pending <==> n in foreignPending {
        if n in pending && n !in foreignPending {
          var id, a :| id in sessions && a in sessions[id].temps && n == "upload-" + suffix(id, a);
          assert "upload-" <= n;
        }
      }
    }
  }
}
