/**
 * The GPU attestation report: the split into signed bytes and signature, the signature
 * check, and the parse of both SPDM messages out of the same bytes.
 */
module Report {
  import opened Common
  import opened SpdmRecords
  import opened SpdmMessages

  const AR_SIGNATURE_LENGTH := 96

  /** What a report is made of; everything but the response's signature is signed. */
  datatype Parsed = Parsed(request: Request, response: Response)

  function SignedBytes(p: Parsed): seq<byte> {
    RequestBytes(p.request) + UnsignedBytes(p.response)
  }

  /**
   * The foreign parts, the signature check under the device certificate and the check of opaque
   * field types, and the two error codes in which GPUs and switches differ.
   */
  datatype Device = Device(
    verify: (seq<byte>, seq<byte>) -> bool,
    refuses: seq<Field> -> Option<Fault>,
    badSignature: Fault,
    badMessage: Fault)

  ghost predicate WellFormed(p: Parsed) {
    ValidRequest(p.request) && ValidResponse(p.response, AR_SIGNATURE_LENGTH)
  }

  /** The report is exactly these fields in this order. */
  ghost predicate Spells(report: seq<byte>, p: Parsed) {
    WellFormed(p) && report == SignedBytes(p) + p.response.signature
  }

  /** What the fields spell carries a good signature, the one among the fields. */
  ghost predicate Signed(device: Device, report: seq<byte>, p: Parsed) {
    Spells(report, p) && device.verify(SignedBytes(p), p.response.signature)
  }

  /** The report is signed, and its opaque fields, behind any earlier ones, are of known types. */
  ghost predicate Authentic(device: Device, earlier: seq<Field>, report: seq<byte>, p: Parsed) {
    Signed(device, report, p) && device.refuses(earlier + p.response.fields).None?
  }

  class AttestationReport {
    const request: RequestMessage
    const response: ResponseMessage

    constructor ()
      ensures fresh(request) && fresh(response) && fresh(response.opaqueFields) && response.opaqueFields.fields == []
    {
      request := new RequestMessage();
      response := new ResponseMessage();
    }

    /** What the object holds of the last report; `earlier` are the opaque fields from before it. */
    function View(earlier: seq<Field>): Parsed
      requires |earlier| <= |response.opaqueFields.fields|
      reads this, request, response, response.opaqueFields
    {
      Parsed(request.View(), response.Since(earlier))
    }

    /**
     * `AttestationReport::create` after the certificate chain is parsed. A report is accepted
     * exactly when it is an authentic serialization of some fields, and the object then holds
     * those fields: the signature that was checked is the one that was parsed, and nothing
     * else that was parsed lies outside the bytes it covers.
     */
    method Create(device: Device, report: seq<byte>) returns (error: Option<Fault>)
      modifies request, response, response.opaqueFields
      ensures error.None? <==> exists p :: Authentic(device, old(response.opaqueFields.fields), report, p)
      ensures error.None? ==>
                && old(response.opaqueFields.fields) <= response.opaqueFields.fields
                && Authentic(device, old(response.opaqueFields.fields), report, View(old(response.opaqueFields.fields)))
      ensures forall p :: Signed(device, report, p) ==> error == device.refuses(old(response.opaqueFields.fields) + p.response.fields)
      ensures (forall p :: !Signed(device, report, p)) ==>
                error == Some(if |report| <= AR_SIGNATURE_LENGTH then InternalError
                              else if !device.verify(report[..|report| - AR_SIGNATURE_LENGTH], report[|report| - AR_SIGNATURE_LENGTH..])
                              then device.badSignature
                              else device.badMessage)
    {
      forall p | Signed(device, report, p) ensures Divided(device, report) {
        SignedDivides(device, report, p);
      }
      hide ValidResponse, ResponseBytes, UnsignedBytes, RequestBytes;
      if |report| <= AR_SIGNATURE_LENGTH {
        return Some(InternalError);
      }
      var signed := report[..|report| - AR_SIGNATURE_LENGTH];
      var signature := report[|report| - AR_SIGNATURE_LENGTH..];
      if !device.verify(signed, signature) {
        return Some(device.badSignature);
      }
      var parsed := request.Parse(report[..REQUEST_LENGTH]);
      if !parsed {
        return Some(device.badMessage);
      }
      ghost var earlier := response.opaqueFields.fields;
      error := response.Parse(report[REQUEST_LENGTH..], AR_SIGNATURE_LENGTH);
      if error.Some? {
        return Some(device.badMessage);
      }
      ghost var held := View(earlier);
      PartsMeet(report, held);
      assert Signed(device, report, held);
      hide WellFormed, SignedBytes;
      forall p | Signed(device, report, p) ensures p == held {
        SameFields(report, p, held);
      }
      assert response.opaqueFields.fields == earlier + held.response.fields;
      error := device.refuses(response.opaqueFields.fields);
      assert error.None? ==> Authentic(device, earlier, report, held);
    }
  }

  /** What the checks of `Create` see when the report is signed. */
  ghost predicate Divided(device: Device, report: seq<byte>) {
    && |report| > AR_SIGNATURE_LENGTH && |report| >= REQUEST_LENGTH
    && device.verify(report[..|report| - AR_SIGNATURE_LENGTH], report[|report| - AR_SIGNATURE_LENGTH..])
    && (exists q :: ValidRequest(q) && RequestBytes(q) == report[..REQUEST_LENGTH])
    && (exists m :: ValidResponse(m, AR_SIGNATURE_LENGTH) && ResponseBytes(m) == report[REQUEST_LENGTH..])
  }

  lemma SignedDivides(device: Device, report: seq<byte>, p: Parsed)
    requires Signed(device, report, p)
    ensures Divided(device, report)
  {
    hide ValidResponse, UnsignedBytes;
    var q, m := p.request, p.response;
    SizesFit(p);
    assert SignedBytes(p) == report[..|report| - AR_SIGNATURE_LENGTH];
    assert m.signature == report[|report| - AR_SIGNATURE_LENGTH..];
    assert RequestBytes(q) == report[..REQUEST_LENGTH];
    assert ResponseBytes(m) == report[REQUEST_LENGTH..];
  }

  lemma SizesFit(p: Parsed)
    requires WellFormed(p)
    ensures |RequestBytes(p.request)| == REQUEST_LENGTH && |p.response.signature| == AR_SIGNATURE_LENGTH
  {
  }

  /** The two parsed messages, laid end to end, are the report, and its tail is their signature. */
  lemma PartsMeet(report: seq<byte>, p: Parsed)
    requires |report| > AR_SIGNATURE_LENGTH && WellFormed(p)
    requires RequestBytes(p.request) == report[..REQUEST_LENGTH] && ResponseBytes(p.response) == report[REQUEST_LENGTH..]
    ensures Spells(report, p)
    ensures SignedBytes(p) == report[..|report| - AR_SIGNATURE_LENGTH] && p.response.signature == report[|report| - AR_SIGNATURE_LENGTH..]
  {
    hide ValidResponse, UnsignedBytes, RequestBytes;
    SizesFit(p);
    assert report == report[..REQUEST_LENGTH] + report[REQUEST_LENGTH..];
    assert report == SignedBytes(p) + p.response.signature;
  }

  /** The bytes determine the fields: no report can be read in two ways. */
  lemma SameFields(report: seq<byte>, p: Parsed, p': Parsed)
    requires Spells(report, p) && Spells(report, p')
    ensures p == p'
  {
    hide ValidResponse, UnsignedBytes;
    var m, m' := p.response, p'.response;
    SizesFit(p);
    SizesFit(p');
    assert RequestBytes(p.request) == report[..REQUEST_LENGTH] == RequestBytes(p'.request);
    assert ResponseBytes(m) == report[REQUEST_LENGTH..] == ResponseBytes(m');
    RequestInjective(p.request, p'.request);
    ResponseInjective(m, m');
  }

  lemma RequestInjective(q: Request, q': Request)
    requires ValidRequest(q) && ValidRequest(q') && RequestBytes(q) == RequestBytes(q')
    ensures q == q'
  {
    var b := RequestBytes(q);
    assert q.nonce == b[4..36] == q'.nonce;
    assert b[2] == q.param1 == q'.param1 && b[3] == q.param2 == q'.param2 && b[36] == q.slotId == q'.slotId;
  }

  lemma ResponseInjective(m: Response, m': Response)
    requires ValidResponse(m, AR_SIGNATURE_LENGTH) && ValidResponse(m', AR_SIGNATURE_LENGTH)
    requires ResponseBytes(m) == ResponseBytes(m')
    ensures m == m'
  {
    hide FieldsOf, ResponseBytes, Tiles, BlockMap;
    var data := ResponseBytes(m);
    ResponseSlices(m, data);
    ResponseSlices(m', data);
    assert data[..5][2] == m.param1 == m'.param1 && data[..5][3] == m.param2 == m'.param2;
    assert data[..5][4] == m.numberOfBlocks == m'.numberOfBlocks;
    var bs :| Tiles(m.record, m.numberOfBlocks, bs) && m.blocks == BlockMap(bs);
    var bs' :| Tiles(m'.record, m'.numberOfBlocks, bs') && m'.blocks == BlockMap(bs');
    TilingExact(m.record, m.numberOfBlocks, bs);
    TilingExact(m.record, m.numberOfBlocks, bs');
  }
}
