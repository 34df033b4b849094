/** The device states' work functions. Modem calls and the fields of parsed
    JSON replies are parameters; display, delays and serial prints are not
    modelled. The device globals are the fields of one Device object. */
module BuzzerCallbacks {
  import opened CStrings
  import opened Avr
  import EepromStore
  import BuzzerFsm

  // Return codes of the work functions (enum ret_vals in Globals.h).
  const Success: int := 0
  const Error: int := 1
  const Repeat: int := 2
  const Timeout: int := 3

  const MaxRetries: int := 5
  const MaxLineLength: int := 256
  /** sizeof(buzzer_name_global). */
  const BuzzerNameSize: int := 30
  const NoParty: int := -1

  /** The reply status every request of the backend is checked against. */
  const StatusSuccess: string := "success"

  /** The device globals: buzzer name, party data, first-setup flag. */
  class Device {
    var waitTime: Int16
    var partyId: Int16
    var hasSystemBeenInitialized: bool
    const buzzerNameGlobal: array<char>
    const partyName: array<char>

    /** Both name buffers are distinct, the buzzer name has its 30 cells and
        holds a NUL, so strlen and "%s" stay inside it. */
    ghost predicate Valid()
      reads this, buzzerNameGlobal
    {
      && buzzerNameGlobal.Length == BuzzerNameSize
      && NUL in buzzerNameGlobal[..]
      && partyName.Length >= 1
      && buzzerNameGlobal != partyName
    }

    /** The globals' definitions are not shown; they are assumed zero, as
        in static storage. */
    constructor (partyNameSize: nat)
      requires partyNameSize >= 1
      ensures Valid() && fresh(buzzerNameGlobal) && fresh(partyName)
      ensures partyName.Length == partyNameSize
      ensures waitTime == 0 && partyId == 0 && !hasSystemBeenInitialized
      ensures CStr(buzzerNameGlobal[..]) == [] && CStr(partyName[..]) == []
    {
      waitTime, partyId, hasSystemBeenInitialized := 0, 0, false;
      var name := new char[BuzzerNameSize](_ => NUL);
      assert name[..][0] == NUL;
      buzzerNameGlobal := name;
      partyName := new char[partyNameSize](_ => NUL);
    }
  }

  /** InitFunc: shows the splash screen and moves on. */
  function InitFunc(stateStartTime: ULong, numIterationsInState: int): (code: int)
    ensures code == Success
  {
    Success
  }

  /** InitFonaShieldFunc with initShield()'s result as `initShieldOk`; once
      the state has repeated MaxRetries times the modem is not consulted. */
  function InitFonaShieldFunc(numIterationsInState: int, initShieldOk: bool): (code: int)
    ensures numIterationsInState >= MaxRetries ==> code == Error
    ensures numIterationsInState < MaxRetries ==>
      (code == Success <==> initShieldOk) && (code == Repeat <==> !initShieldOk)
  {
    if numIterationsInState >= MaxRetries then Error
    else if !initShieldOk then Repeat
    else Success
  }

  /** InitGPRSFunc with enableGPRS()'s result as `enableGprsOk`: the same
      retry policy as the modem initialisation. */
  function InitGprsFunc(numIterationsInState: int, enableGprsOk: bool): (code: int)
    ensures numIterationsInState >= MaxRetries ==> code == Error
    ensures numIterationsInState < MaxRetries ==>
      (code == Success <==> enableGprsOk) && (code == Repeat <==> !enableGprsOk)
  {
    if numIterationsInState >= MaxRetries then Error
    else if !enableGprsOk then Repeat
    else Success
  }

  /** Re-running InitFonaShieldFunc in its state with the iteration count
      k, k + 1, ..., where the modem answers attempt j when ready(j): the
      first code that is not Repeat, and how many calls it took. The state
      always ends within MaxRetries + 1 calls, and ends in Success exactly
      when one of the attempts before the limit finds the modem ready. */
  function RetryFrom(ready: nat -> bool, k: nat): (r: (int, nat))
    ensures r.0 == Success || r.0 == Error
    ensures 1 <= r.1 && (k < MaxRetries ==> r.1 <= MaxRetries - k + 1)
    ensures r.0 == Success <==> exists j :: k <= j < MaxRetries && ready(j)
    decreases MaxRetries - k
  {
    var code := InitFonaShieldFunc(k, ready(k));
    if code != Repeat then (code, 1)
    else
      var rest := RetryFrom(ready, k + 1);
      (rest.0, rest.1 + 1)
  }

  /** The name copy GetBuzzerNameFunc performs as written:
      strncpy(buzzer_name_global, buzzer_name, 30). */
  function NameCopyAsWritten(buzzerName: seq<char>): (r: seq<char>)
    ensures |r| == BuzzerNameSize
  {
    StrncpyPrefix(buzzerName, BuzzerNameSize)
  }

  /** A name of 30 characters or more leaves buzzer_name_global without a
      NUL, so the next strlen of it reads past its end. */
  lemma LongNameLeftUnterminated(buzzerName: seq<char>)
    requires NUL !in buzzerName && |buzzerName| >= BuzzerNameSize
    ensures NUL !in NameCopyAsWritten(buzzerName)
  {
    CStrOfUnterminated(buzzerName);
    StrncpyCStr(buzzerName, BuzzerNameSize);
  }

  /** strncpy(dst, src, size - 1) and a NUL in the last cell, the copy
      GetAvailPartyFunc uses for party_name. */
  method CopyTerminated(dst: array<char>, src: seq<char>)
    requires dst.Length >= 1
    modifies dst
    ensures dst[dst.Length - 1] == NUL
    ensures CStr(dst[..]) == CStr(src)[..Min(|CStr(src)|, dst.Length - 1)]
  {
    Strncpy(dst, src, dst.Length - 1);
    dst[dst.Length - 1] := NUL;
    StrncpyCStr(src, dst.Length - 1);
    var p := StrncpyPrefix(src, dst.Length - 1);
    assert dst[..] == p + [NUL];
    if |CStr(src)| < dst.Length - 1 {
      CStrCut(dst[..], |CStr(src)|);
      CStrCut(p, |CStr(src)|);
    } else {
      CStrOfTerminated(p, []);
    }
  }

  function Min(a: int, b: int): int
  {
    if a < b then a else b
  }

  /** GetBuzzerNameFunc with the name field of the backend's reply as
      `buzzerName`: stores the name and its NUL in the EEPROM (a name longer
      than the EEPROM is silently not stored) and copies it, at most 29
      characters and a NUL, into buzzer_name_global. The name is parsed out
      of a reply line held in a buffer of MaxLineLength cells, so it is
      shorter than that. */
  method GetBuzzerNameFunc(dev: Device, eeprom: array<char>, buzzerName: seq<char>)
    returns (code: int)
    requires dev.Valid() && NUL !in buzzerName && |buzzerName| < MaxLineLength
    requires eeprom != dev.buzzerNameGlobal && eeprom.Length <= EepromStore.MaxEepromLength
    modifies dev.buzzerNameGlobal, eeprom
    ensures dev.Valid() && code == Success
    ensures eeprom[..] == EepromStore.Written(old(eeprom[..]), buzzerName + [NUL], |buzzerName| + 1)
    ensures CStr(dev.buzzerNameGlobal[..]) == buzzerName[..Min(|buzzerName|, BuzzerNameSize - 1)]
  {
    var _ := EepromStore.EepromWrite(eeprom, buzzerName + [NUL], |buzzerName| + 1);
    CopyTerminated(dev.buzzerNameGlobal, buzzerName);
    CStrOfUnterminated(buzzerName);
    assert dev.buzzerNameGlobal[..][BuzzerNameSize - 1] == NUL;
    code := Success;
  }

  /** IdleFunc: marks the device as set up and stays idle. */
  method IdleFunc(dev: Device, stateStartTime: ULong, numIterationsInState: int)
    returns (code: int)
    modifies dev`hasSystemBeenInitialized
    ensures dev.hasSystemBeenInitialized && code == Repeat
  {
    dev.hasSystemBeenInitialized := true;
    code := Repeat;
  }

  function ShutdownFunc(stateStartTime: ULong, numIterationsInState: int): (code: int)
    ensures code == Success
  {
    Success
  }

  function ChargeFunc(stateStartTime: ULong, numIterationsInState: int): (code: int)
    ensures code == Repeat
  {
    Repeat
  }

  /** WakeupFunc: resumes only a device that has been set up before. */
  function WakeupFunc(dev: Device): (code: int)
    reads dev
    ensures code == Success <==> dev.hasSystemBeenInitialized
    ensures code == Error <==> !dev.hasSystemBeenInitialized
  {
    if dev.hasSystemBeenInitialized then Success else Error
  }

  function SleepFunc(stateStartTime: ULong, numIterationsInState: int): (code: int)
    ensures code == Repeat
  {
    Repeat
  }

  /** The body snprintf produces for "{\"buzzer_name\":\"%s\",\"buzzing\": %d}". */
  function FormatPostBody(name: seq<char>, isBuzzing: bool): (body: seq<char>)
    ensures |body| == |BodyPrefix| + |name| + |BodySuffix(isBuzzing)|
    ensures body[..|BodyPrefix|] == BodyPrefix
    ensures body[|BodyPrefix|..|BodyPrefix| + |name|] == name
    ensures body[|BodyPrefix| + |name|..] == BodySuffix(isBuzzing)
  {
    "{\"buzzer_name\":\"" + name + "\",\"buzzing\": " + (if isBuzzing then "1" else "0") + "}"
  }

  /** The text before the name in the body. */
  const BodyPrefix: string := "{\"buzzer_name\":\""

  /** The text after the name: the flag as "%d" and the closing brace. */
  function BodySuffix(isBuzzing: bool): string
  {
    "\",\"buzzing\": " + (if isBuzzing then "1" else "0") + "}"
  }

  /** The skeleton whose length sizes post_data. */
  const JsonSkeleton: string := "{\"buzzer_name\":\"\",\"buzzing\": 0}"

  /** snprintf(buf, size, ...) with formatted output `out`: at most size - 1
      characters of it, then a NUL. */
  function Snprintf(out: seq<char>, size: nat): (r: seq<char>)
    requires size >= 1
    ensures 1 <= |r| <= size && |r| - 1 <= |out| && r[|r| - 1] == NUL
    ensures r[..|r| - 1] == out[..|r| - 1]
    ensures |out| < size ==> r == out + [NUL]
    ensures |out| >= size ==> |r| == size
  {
    out[..Min(|out|, size - 1)] + [NUL]
  }

  /** The body is exactly as long as the skeleton plus the name, so a
      post_data of the skeleton's length, the name's and one more holds it
      and its NUL without truncation. */
  lemma PostBodyFits(name: seq<char>, isBuzzing: bool)
    ensures |FormatPostBody(name, isBuzzing)| == |JsonSkeleton| + |name|
    ensures Snprintf(FormatPostBody(name, isBuzzing), |JsonSkeleton| + |name| + 1)
            == FormatPostBody(name, isBuzzing) + [NUL]
  {
  }

  /** The post_data buffer APIPOSTBuzzerName fills (the HTTP request it
      then makes is outside the model): the whole body with the current
      buzzer name, and a NUL. */
  function ApiPostBuzzerNameData(dev: Device, isBuzzing: bool): (postData: seq<char>)
    reads dev, dev.buzzerNameGlobal
    requires dev.Valid()
    ensures postData == FormatPostBody(CStr(dev.buzzerNameGlobal[..]), isBuzzing) + [NUL]
    ensures |postData| == |JsonSkeleton| + |CStr(dev.buzzerNameGlobal[..])| + 1
  {
    var name := CStr(dev.buzzerNameGlobal[..]);
    PostBodyFits(name, isBuzzing);
    Snprintf(FormatPostBody(name, isBuzzing), |JsonSkeleton| + |name| + 1)
  }

  /** wait_time / 60 in C: the quotient truncated toward zero. */
  function CDiv60(x: int): (q: int)
    ensures x - 60 < q * 60 <= x || x <= q * 60 < x + 60
    ensures x >= 0 ==> q * 60 <= x < q * 60 + 60
    ensures x < 0 ==> q * 60 - 60 < x <= q * 60
  {
    if x >= 0 then x / 60 else -((-x) / 60)
  }

  /** The hours and minutes the heartbeat screen shows for a wait time. */
  function SplitWaitTime(waitTime: Int16): (r: (int, int))
    ensures r.0 * 60 + r.1 == waitTime
    ensures waitTime >= 0 ==> 0 <= r.1 < 60
    ensures waitTime < 0 ==> -60 < r.1 <= 0
  {
    var hrs := CDiv60(waitTime);
    (hrs, waitTime - hrs * 60)
  }

  /** The fields of the heartbeat reply HeartbeatFunc reads. */
  datatype HeartbeatReply = HeartbeatReply(status: string, isActive: bool, buzz: bool, waitTime: Int16)

  /** The code HeartbeatFunc returns: Repeat on a failed request, Timeout
      when the party is no longer active, Success when it is time to buzz,
      Repeat otherwise; never Error. */
  function HeartbeatCode(reply: HeartbeatReply): (code: int)
    ensures code == Success <==> reply.status == StatusSuccess && reply.isActive && reply.buzz
    ensures code == Timeout <==> reply.status == StatusSuccess && !reply.isActive
    ensures code == Repeat <==> reply.status != StatusSuccess || (reply.isActive && !reply.buzz)
    ensures code != Error
  {
    if reply.status != StatusSuccess then Repeat
    else if !reply.isActive then Timeout
    else if reply.buzz then Success
    else Repeat
  }

  /** HeartbeatFunc: takes over the backend's wait time only on a good reply
      for an active party that is not to buzz yet. */
  method HeartbeatFunc(dev: Device, reply: HeartbeatReply) returns (code: int)
    modifies dev`waitTime
    ensures code == HeartbeatCode(reply)
    ensures dev.waitTime == (if reply.status == StatusSuccess && reply.isActive && !reply.buzz
                             then reply.waitTime else old(dev.waitTime))
  {
    if reply.status != StatusSuccess {
      return Repeat;
    }
    if !reply.isActive {
      return Timeout;
    }
    if reply.buzz {
      return Success;
    }
    dev.waitTime := reply.waitTime;
    return Repeat;
  }

  /** AcceptAvailPartyFunc with the reply's status. */
  function AcceptAvailPartyFunc(status: string): (code: int)
    ensures code == Success <==> status == StatusSuccess
    ensures code == Error <==> status != StatusSuccess
  {
    if status == StatusSuccess then Success else Error
  }

  /** The fields of the available-party reply GetAvailPartyFunc reads. */
  datatype PartyReply = PartyReply(partyAvail: bool, waitTime: Int16, partyId: Int16, partyName: seq<char>)

  /** GetAvailPartyFunc: when a party is available, takes its wait time, id
      and name (truncated to fit, NUL in the last cell); otherwise changes
      nothing and reports Error. */
  method GetAvailPartyFunc(dev: Device, reply: PartyReply) returns (code: int)
    requires dev.partyName.Length >= 1
    modifies dev`waitTime, dev`partyId, dev.partyName
    ensures reply.partyAvail ==> && code == Success
                                 && dev.waitTime == reply.waitTime && dev.partyId == reply.partyId
                                 && dev.partyName[dev.partyName.Length - 1] == NUL
                                 && CStr(dev.partyName[..]) ==
                                    CStr(reply.partyName)[..Min(|CStr(reply.partyName)|, dev.partyName.Length - 1)]
    ensures !reply.partyAvail ==> && code == Error
                                  && dev.waitTime == old(dev.waitTime) && dev.partyId == old(dev.partyId)
                                  && dev.partyName[..] == old(dev.partyName[..])
  {
    if reply.partyAvail {
      dev.waitTime := reply.waitTime;
      dev.partyId := reply.partyId;
      CopyTerminated(dev.partyName, reply.partyName);
      return Success;
    }
    return Error;
  }

  /** CheckBuzzerRegFunc with IsBuzzerRegistered()'s answer. */
  function CheckBuzzerRegFunc(isRegistered: bool): (code: int)
    ensures code == Success <==> isRegistered
    ensures code == Error <==> !isRegistered
  {
    if isRegistered then Success else Error
  }

  /** WaitBuzzerRegFunc: keeps waiting until the buzzer is registered. */
  function WaitBuzzerRegFunc(isRegistered: bool): (code: int)
    ensures code == Success <==> isRegistered
    ensures code == Repeat <==> !isRegistered
  {
    if !isRegistered then Repeat else Success
  }

  /** BuzzFunc with the heartbeat reply's is_active: buzzes until the party
      is closed. */
  function BuzzFunc(isActive: bool): (code: int)
    ensures code == Success <==> !isActive
    ensures code == Repeat <==> isActive
  {
    if !isActive then Success else Repeat
  }

  /** Documents how the engine reads the work functions' codes, by unfolding
      NextStateId at the four constants: ERROR has the value of the engine's
      FAILURE, and TIMEOUT, which the engine does not know, keeps the state
      like REPEAT does. */
  lemma CodesAsTheEngineReadsThem(s: BuzzerFsm.State, cur: int)
    ensures BuzzerFsm.NextStateId(s, cur, Success) == s.nextStateSuccess
    ensures BuzzerFsm.NextStateId(s, cur, Error) == s.nextStateFailure
    ensures BuzzerFsm.NextStateId(s, cur, Repeat) == cur
    ensures BuzzerFsm.NextStateId(s, cur, Timeout) == cur
  {
  }

  /** A heartbeat state told on every tick that its party is gone returns
      Timeout each time, which the engine ignores: the device keeps polling
      the heartbeat for as long as such replies come. */
  lemma InactivePartyKeepsHeartbeat(table: seq<BuzzerFsm.State>, cur: int,
                                    replies: seq<HeartbeatReply>, codes: seq<int>)
    requires BuzzerFsm.Closed(table) && BuzzerFsm.Runnable(table, cur)
    requires |codes| == |replies|
    requires forall i :: 0 <= i < |replies| ==> codes[i] == HeartbeatCode(replies[i])
    requires forall i :: 0 <= i < |replies| ==> replies[i].status == StatusSuccess && !replies[i].isActive
    ensures BuzzerFsm.Run(table, cur, codes) == cur
  {
    BuzzerFsm.NoMoveStaysPut(table, cur, codes);
  }
}
