/** frontend/client/src/components/security/qr-code-scanner.jsx: `processQRData`, which reads
    the tokens "STUDPASS:<id>:<timestamp>" and "VISPASS:<id>:<timestamp>" that the pass QR
    components print. `Date.now()` is the parameter `now` (milliseconds). The camera is not
    modelled. */
module QrScanner {
  import opened Wrappers
  import opened JsText

  datatype PassKind = StudentPass | VisitorPass

  /** The type argument handed to `onScanSuccess`. */
  function KindName(k: PassKind): string {
    match k
    case StudentPass => "student"
    case VisitorPass => "visitor"
  }

  /** The prefix the QR components write for each kind. */
  function KindPrefix(k: PassKind): string {
    match k
    case StudentPass => "STUDPASS"
    case VisitorPass => "VISPASS"
  }

  /** 24 hours in milliseconds. */
  const DayMillis: int := 24 * 60 * 60 * 1000

  /** `currentTime - scanTime > 24h`; a timestamp that is not a number (`NaN`) makes the
      comparison false, so such a token never expires. */
  predicate Expired(now: int, scanTime: Option<int>) {
    scanTime.Some? && now - scanTime.value > DayMillis
  }

  /** What one scan ends in: the expiry error, a recognised pass (its id is `None` when it is
      `NaN`), or the error message handed to `onScanError`. */
  datatype Scan = ExpiredPass | Accepted(id: Option<int>, kind: PassKind) | Invalid(reason: string)

  /** `processQRData`: the format check comes first, then expiry, then the type. */
  function Process(qrData: string, now: int): (r: Scan)
    ensures |Split(qrData, ':')| != 3 ==> r == Invalid("Invalid QR code format")
    ensures r == ExpiredPass <==> |Split(qrData, ':')| == 3 && Expired(now, ParseInt(Split(qrData, ':')[2]))
    ensures r.Accepted? <==>
      && |Split(qrData, ':')| == 3 && !Expired(now, ParseInt(Split(qrData, ':')[2]))
      && (Split(qrData, ':')[0] == "STUDPASS" || Split(qrData, ':')[0] == "VISPASS")
    ensures r.Accepted? ==>
      && r.id == ParseInt(Split(qrData, ':')[1])
      && KindPrefix(r.kind) == Split(qrData, ':')[0]
    ensures r.Invalid? ==> r.reason == "Invalid QR code format" || r.reason == "Unknown pass type"
  {
    var parts := Split(qrData, ':');
    if |parts| != 3 then Invalid("Invalid QR code format")
    else if Expired(now, ParseInt(parts[2])) then ExpiredPass
    else if parts[0] == "STUDPASS" then Accepted(ParseInt(parts[1]), StudentPass)
    else if parts[0] == "VISPASS" then Accepted(ParseInt(parts[1]), VisitorPass)
    else Invalid("Unknown pass type")
  }

  /** The token a pass QR code carries. */
  function Token(kind: PassKind, id: nat, timestamp: nat): string {
    KindPrefix(kind) + ":" + Decimal(id) + ":" + Decimal(timestamp)
  }

  lemma DecimalHasNoColon(n: nat)
    ensures ':' !in Decimal(n)
  {
  }

  /** The token splits on ':' into the prefix, the id and the timestamp. */
  lemma TokenParts(kind: PassKind, id: nat, timestamp: nat)
    ensures Split(Token(kind, id, timestamp), ':') == [KindPrefix(kind), Decimal(id), Decimal(timestamp)]
  {
    var p, i, t := KindPrefix(kind), Decimal(id), Decimal(timestamp);
    DecimalHasNoColon(id);
    DecimalHasNoColon(timestamp);
    assert ':' !in p;
    assert Token(kind, id, timestamp) == p + [':'] + (i + [':'] + t);
    SplitAtFirstSeparator(p, i + [':'] + t, ':');
    SplitAtFirstSeparator(i, t, ':');
    SplitWithoutSeparator(t, ':');
  }

  /** The token of a pass at most 24 hours old reads back as that pass's kind and id. */
  lemma TokenRoundTrip(kind: PassKind, id: nat, timestamp: nat, now: int)
    requires now - timestamp <= DayMillis
    ensures Process(Token(kind, id, timestamp), now) == Accepted(Some(id), kind)
  {
    TokenParts(kind, id, timestamp);
    ParseIntDecimal(id);
    ParseIntDecimal(timestamp);
  }

  /** The UI state `processQRData` writes and the callbacks it calls. The pass details it shows
      are fixed sample data, so `shown` records only the id and kind they are shown for. */
  class Scanner {
    var error: Option<string>
    var shown: Option<(Option<int>, PassKind)>
    var successCalls: seq<(Option<int>, string)>
    var errorCalls: seq<string>
    /** Whether the parent passed `onScanSuccess` / `onScanError`. */
    const hasOnSuccess: bool
    const hasOnError: bool

    constructor (hasOnSuccess: bool, hasOnError: bool)
      ensures this.hasOnSuccess == hasOnSuccess && this.hasOnError == hasOnError
      ensures error.None? && shown.None? && successCalls == [] && errorCalls == []
    {
      this.hasOnSuccess, this.hasOnError := hasOnSuccess, hasOnError;
      error, shown, successCalls, errorCalls := None, None, [], [];
    }

    /** `processQRData(qrData)` at time `now`. */
    method ProcessQRData(qrData: string, now: int)
      modifies this
      ensures match Process(qrData, now)
        case ExpiredPass =>
          && error == Some("This pass has expired. Please generate a new QR code.")
          && shown == old(shown) && successCalls == old(successCalls) && errorCalls == old(errorCalls)
        case Accepted(id, kind) =>
          && error == old(error) && shown == Some((id, kind)) && errorCalls == old(errorCalls)
          && successCalls == old(successCalls) + (if hasOnSuccess then [(id, KindName(kind))] else [])
        case Invalid(reason) =>
          && error == Some("Invalid QR code. Please try again with a valid pass QR code.")
          && shown == old(shown) && successCalls == old(successCalls)
          && errorCalls == old(errorCalls) + (if hasOnError then [reason] else [])
    {
      var parts := Split(qrData, ':');
      var reason: string;
      if |parts| != 3 {
        reason := "Invalid QR code format";
      } else {
        var passId := ParseInt(parts[1]);
        var scanTime := ParseInt(parts[2]);
        if scanTime.Some? && now - scanTime.value > DayMillis {
          error := Some("This pass has expired. Please generate a new QR code.");
          return;
        }
        if parts[0] == "STUDPASS" || parts[0] == "VISPASS" {
          var kind := if parts[0] == "STUDPASS" then StudentPass else VisitorPass;
          shown := Some((passId, kind));
          if hasOnSuccess {
            successCalls := successCalls + [(passId, KindName(kind))];
          }
          return;
        }
        reason := "Unknown pass type";
      }
      error := Some("Invalid QR code. Please try again with a valid pass QR code.");
      if hasOnError {
        errorCalls := errorCalls + [reason];
      }
    }
  }
}
