/** Storing a NUL-terminated string at the start of the EEPROM and reading it
    back. The EEPROM is an array of byte cells (chars here), address 0 first;
    its length is EEPROM.length(). */
module EepromStore {
  import opened CStrings
  import opened Avr

  /** EEPROM.length() returns a uint16_t. */
  const MaxEepromLength: int := UIntMax

  /** The guard `buf_len > EEPROM.length()` compares at unsigned int width,
      so a negative buf_len is converted to 2^16 + buf_len first. */
  predicate Accepted(length: nat, bufLen: Int16): (b: bool)
    ensures b ==> bufLen <= length
    ensures 0 <= bufLen <= length ==> b
  {
    AsUInt16(bufLen) <= length
  }

  /** On a store smaller than 2^15 cells, as every AVR EEPROM is, the guard
      accepts exactly the lengths 0 .. length. */
  lemma AcceptedOnSmallStore(length: nat, bufLen: Int16)
    requires length < 0x8000
    ensures Accepted(length, bufLen) <==> 0 <= bufLen <= length
  {
  }

  /** The store after EEPROMWrite(buf, bufLen): rejected (unchanged) when
      the guard refuses bufLen, else buf's first bufLen bytes at addresses
      0 .. bufLen - 1 and the rest as it was. */
  function Written(store: seq<char>, buf: seq<char>, bufLen: Int16): (r: seq<char>)
    requires Accepted(|store|, bufLen) ==> bufLen <= |buf|
    ensures |r| == |store|
    ensures !Accepted(|store|, bufLen) ==> r == store
    ensures Accepted(|store|, bufLen) ==> forall a :: 0 <= a < |store| ==> r[a] == if a < bufLen then buf[a] else store[a]
  {
    if !Accepted(|store|, bufLen) || bufLen <= 0 then store else buf[..bufLen] + store[bufLen..]
  }

  /** How many cells EEPROMRead(buf, bufLen) fills: up to and including the
      first NUL among the first bufLen stored cells, or all bufLen of them
      when there is no NUL. */
  function ReadCount(store: seq<char>, bufLen: int): (n: nat)
    requires bufLen <= |store|
    ensures n <= (if bufLen < 0 then 0 else bufLen)
    ensures forall a :: 0 <= a < n - 1 ==> store[a] != NUL
    ensures n < bufLen ==> n > 0 && store[n - 1] == NUL
  {
    if bufLen <= 0 then 0
    else
      var c := CStr(store[..bufLen]);
      assert forall a :: 0 <= a < |c| ==> store[a] == c[a];
      if |c| < bufLen then |c| + 1 else bufLen
  }

  method EepromWrite(eeprom: array<char>, buf: seq<char>, bufLen: Int16) returns (ok: bool)
    requires eeprom.Length <= MaxEepromLength
    requires Accepted(eeprom.Length, bufLen) ==> bufLen <= |buf|
    modifies eeprom
    ensures ok == Accepted(eeprom.Length, bufLen)
    ensures eeprom[..] == Written(old(eeprom[..]), buf, bufLen)
  {
    if AsUInt16(bufLen) > eeprom.Length {
      return false;
    }
    var addr := 0;
    while addr < bufLen
      invariant 0 <= addr <= (if bufLen < 0 then 0 else bufLen)
      invariant eeprom[..addr] == buf[..addr]
      invariant eeprom[addr..] == old(eeprom[addr..])
    {
      eeprom[addr] := buf[addr];
      addr := addr + 1;
    }
    assert eeprom[..] == eeprom[..addr] + eeprom[addr..];
    return true;
  }

  /** Copies stored cells into buf from address 0 until it has copied a NUL
      or bufLen cells; the store is only read. */
  method EepromRead(eeprom: array<char>, buf: array<char>, bufLen: Int16) returns (ok: bool)
    requires eeprom.Length <= MaxEepromLength
    requires Accepted(eeprom.Length, bufLen) ==> bufLen <= buf.Length
    requires buf != eeprom
    modifies buf
    ensures ok == Accepted(eeprom.Length, bufLen)
    ensures eeprom[..] == old(eeprom[..])
    ensures !ok ==> buf[..] == old(buf[..])
    ensures ok ==> var n := ReadCount(eeprom[..], bufLen);
      buf[..n] == eeprom[..n] && buf[n..] == old(buf[n..])
  {
    if AsUInt16(bufLen) > eeprom.Length {
      return false;
    }
    var addr := 0;
    while addr < bufLen
      invariant 0 <= addr <= (if bufLen < 0 then 0 else bufLen)
      invariant buf[..addr] == eeprom[..addr]
      invariant forall a :: addr <= a < buf.Length ==> buf[a] == old(buf[a])
      invariant NUL !in eeprom[..addr]
    {
      buf[addr] := eeprom[addr];
      if buf[addr] == NUL {
        CStrUnique(eeprom[..bufLen], eeprom[..addr]);
        assert buf[..addr + 1] == eeprom[..addr + 1];
        assert forall a :: addr + 1 <= a < buf.Length ==> buf[a] == old(buf[a]);
        assert buf[addr + 1..] == old(buf[addr + 1..]);
        return true;
      }
      addr := addr + 1;
    }
    if bufLen > 0 {
      CStrOfUnterminated(eeprom[..bufLen]);
    }
    assert buf[addr..] == old(buf[addr..]);
    return true;
  }

  /** Writing a NUL-terminated string s with bufLen = |s| + 1 and reading it
      back with any accepted bufLen of at least |s| + 1 gives s and its NUL. */
  lemma WriteThenRead(store: seq<char>, s: seq<char>, bufLen: Int16)
    requires NUL !in s
    requires |s| + 1 <= bufLen <= |store|
    ensures var stored := Written(store, s + [NUL], |s| + 1);
      ReadCount(stored, bufLen) == |s| + 1 && stored[..|s| + 1] == s + [NUL]
  {
    var stored := Written(store, s + [NUL], |s| + 1);
    assert stored[..bufLen] == s + [NUL] + stored[|s| + 1..bufLen];
    CStrOfTerminated(s, stored[|s| + 1..bufLen]);
  }

  /** When none of the first bufLen stored cells is a NUL, all bufLen are
      copied and none of them terminates the string. */
  lemma ReadUnterminated(store: seq<char>, bufLen: int)
    requires 0 < bufLen <= |store|
    requires NUL !in store[..bufLen]
    ensures ReadCount(store, bufLen) == bufLen
  {
    CStrOfUnterminated(store[..bufLen]);
  }

  /** The two operations together, as the firmware uses them for the buzzer
      name: the read buffer then holds the string and its NUL. */
  method StoreAndLoad(eeprom: array<char>, s: seq<char>, buf: array<char>, bufLen: Int16)
    returns (wrote: bool, read: bool)
    requires eeprom.Length <= MaxEepromLength
    requires NUL !in s && buf != eeprom
    requires |s| + 1 <= bufLen <= eeprom.Length && bufLen <= buf.Length
    modifies eeprom, buf
    ensures wrote && read
    ensures buf[..|s| + 1] == s + [NUL]
  {
    wrote := EepromWrite(eeprom, s + [NUL], |s| + 1);
    ghost var stored := eeprom[..];
    read := EepromRead(eeprom, buf, bufLen);
    WriteThenRead(old(eeprom[..]), s, bufLen);
    assert buf[..|s| + 1] == stored[..|s| + 1];
  }
}
