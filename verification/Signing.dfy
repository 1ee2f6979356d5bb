/**
 Signed endpoints: a response writer that buffers what a handler writes and answers with its
 signature, in front of an HTTP writer whose first status code wins.
 */
module Signing {
  import opened Results

  type Byte = n: int | 0 <= n < 256

  type Headers = map<string, string>

  const OK := 200
  const INTERNAL_ERROR := 500

  /** What a signer writes for a message before it returns, and its error if it fails. */
  datatype Signed = Signed(written: seq<Byte>, error: Option<seq<Byte>>)

  type Signer = seq<Byte> -> Signed

  /** What a handler can do with a response writer. */
  datatype Call = SetHeader(key: string, value: string) | Write(data: seq<Byte>) | WriteHeader(code: int)

  // ---------- the underlying HTTP writer ----------

  /** A response under way: `sent` are the headers that went out with the status line. */
  datatype Wire = Wire(headers: Headers, status: Option<int>, sent: Headers, body: seq<Byte>)

  datatype Reply = Reply(status: int, headers: Headers, body: seq<Byte>)

  /** The headers `http.Error` sets. */
  const ERROR_HEADERS: Headers :=
    map["Content-Type" := "text/plain; charset=utf-8", "X-Content-Type-Options" := "nosniff"]

  function Commit(w: Wire, code: int): Wire {
    if w.status.Some? then w else w.(status := Some(code), sent := w.headers)
  }

  function Append(w: Wire, data: seq<Byte>): Wire {
    Commit(w, OK).(body := w.body + data)
  }

  /** `http.Error` on a response under way. */
  function WithError(w: Wire, message: seq<Byte>, code: int): Wire {
    Append(Commit(w.(headers := w.headers + ERROR_HEADERS), code), message + [10])
  }

  function Apply(w: Wire, c: Call): Wire {
    match c
    case SetHeader(k, v) => w.(headers := w.headers[k := v])
    case Write(data) => Append(w, data)
    case WriteHeader(code) => Commit(w, code)
  }

  /** The reply once the handler has returned; a response never committed is committed with 200. */
  function Finish(w: Wire): Reply {
    var done := Commit(w, OK);
    Reply(done.status.value, done.sent, done.body)
  }

  function Fresh(headers: Headers): Wire {
    Wire(headers, None, map[], [])
  }

  class ResponseWriter {
    var header: Headers
    var status: Option<int>
    var sent: Headers
    var body: seq<Byte>

    constructor (header: Headers)
      ensures State() == Fresh(header)
    {
      this.header, status, sent, body := header, None, map[], [];
    }

    function State(): Wire
      reads this
    {
      Wire(header, status, sent, body)
    }

    method SetHeader(key: string, value: string)
      modifies `header
      ensures header == old(header)[key := value]
    {
      header := header[key := value];
    }

    /** The first status line goes out with the headers set by then; any later one is ignored. */
    method WriteHeader(code: int)
      modifies `status, `sent
      ensures old(status).None? ==> status == Some(code) && sent == header
      ensures old(status).Some? ==> status == old(status) && sent == old(sent)
    {
      if status.Some? {
        return;
      }
      status, sent := Some(code), header;
    }

    /** The first write settles 200; every write goes out at once, behind the ones before it. */
    method Write(data: seq<Byte>) returns (n: nat)
      modifies `status, `sent, `body
      ensures body == old(body) + data && n == |data|
      ensures old(status).None? ==> status == Some(200) && sent == header
      ensures old(status).Some? ==> status == old(status) && sent == old(sent)
    {
      if status.None? {
        WriteHeader(OK);
      }
      body := body + data;
      n := |data|;
    }

    /** One call of a handler. */
    method Do(c: Call)
      modifies this
      ensures State() == Apply(old(State()), c)
    {
      match c {
        case SetHeader(k, v) => SetHeader(k, v);
        case Write(data) => var _ := Write(data);
        case WriteHeader(code) => WriteHeader(code);
      }
    }

    /** `http.Error`. */
    method Error(message: seq<Byte>, code: int)
      modifies this
      ensures State() == WithError(old(State()), message, code)
      ensures body == old(body) + message + [10] && status == (if old(status).Some? then old(status) else Some(code))
      ensures header == old(header)["Content-Type" := "text/plain; charset=utf-8"]
                                   ["X-Content-Type-Options" := "nosniff"]
      ensures sent == if old(status).Some? then old(sent) else header
    {
      header := header + ERROR_HEADERS;
      WriteHeader(code);
      var _ := Write(message + [10]);
    }
  }

  // ---------- the signing writer ----------

  class SignatureResponseWriter {
    const w: ResponseWriter
    const signer: Signer
    var header: Headers
    var buf: seq<Byte>

    constructor (w: ResponseWriter, signer: Signer)
      ensures this.w == w && this.signer == signer && header == map[] && buf == []
    {
      this.w, this.signer, header, buf := w, signer, map[], [];
    }

    /** Setting a header through `Header()`: the map is this writer's own. */
    method SetHeader(key: string, value: string)
      modifies `header
      ensures header == old(header)[key := value]
    {
      header := header[key := value];
    }

    method Write(data: seq<Byte>) returns (n: nat)
      modifies `buf
      ensures buf == old(buf) + data && n == |data|
    {
      buf := buf + data;
      n := |data|;
    }

    method WriteHeader(code: int)
      modifies w
      ensures w.header == old(w.header) && w.body == old(w.body)
      ensures if code != 200 && old(w.status).None? then w.status == Some(code) && w.sent == w.header
              else w.status == old(w.status) && w.sent == old(w.sent)
    {
      if code != OK {
        w.WriteHeader(code);
      }
    }

    /** The signature goes out whole or not at all; an empty signature writes nothing. */
    method Flush() returns (error: Option<seq<Byte>>)
      modifies `buf, w
      ensures var s := signer(old(buf));
              && error == s.error
              && w.State() == if s.error.Some? || s.written == [] then old(w.State())
                              else Append(old(w.State()), s.written)
      ensures buf == []
    {
      var s := signer(buf);
      buf := [];
      if s.error.None? && s.written != [] {
        var _ := w.Write(s.written);
      }
      error := s.error;
    }

    /** One call of the wrapped handler: whatever it is, no body byte reaches the client. */
    method Do(c: Call)
      modifies `header, `buf, w
      ensures w.State() == Passed(old(w.State()), c) && w.State().body == old(w.State()).body
      ensures buf == old(buf) + Data(c)
    {
      match c {
        case SetHeader(k, v) => SetHeader(k, v);
        case Write(data) => var _ := Write(data);
        case WriteHeader(code) => WriteHeader(code);
      }
    }
  }

  /** What a call on the signing writer lets through. */
  function Passed(w: Wire, c: Call): Wire {
    if c.WriteHeader? && c.code != OK then Commit(w, c.code) else w
  }

  function Data(c: Call): seq<Byte> {
    if c.Write? then c.data else []
  }

  /** A handler's calls in order, on the plain writer and as the signing writer lets them through. */
  function PlainRun(w: Wire, calls: seq<Call>): Wire
    decreases |calls|
  {
    if calls == [] then w else PlainRun(Apply(w, calls[0]), calls[1..])
  }

  function PassedRun(w: Wire, calls: seq<Call>): Wire
    decreases |calls|
  {
    if calls == [] then w else PassedRun(Passed(w, calls[0]), calls[1..])
  }

  /** `SignatureHandler`, for a handler that makes the given calls. */
  method SignatureHandler(signer: Signer, calls: seq<Call>, w: ResponseWriter)
    modifies w
    ensures w.State() == SignedRun(signer, old(w.State()), calls)
  {
    var srw := new SignatureResponseWriter(w, signer);
    ghost var passed, written := PassedRun(w.State(), calls), Written(calls);
    assert calls[0..] == calls;
    hide PassedRun, Passed, Written, Data;
    var i := 0;
    while i < |calls|
      invariant 0 <= i <= |calls|
      invariant srw.w == w && srw.signer == signer
      invariant PassedRun(w.State(), calls[i..]) == passed && srw.buf + Written(calls[i..]) == written
    {
      NextCall(w.State(), calls, i);
      srw.Do(calls[i]);
      i := i + 1;
    }
    assert w.State() == passed && srw.buf == written by {
      EndOfRun(w.State(), calls[i..]);
    }
    var error := srw.Flush();
    if error.Some? {
      w.Error(error.value, INTERNAL_ERROR);
    }
  }

  lemma NextCall(w: Wire, calls: seq<Call>, i: nat)
    requires i < |calls|
    ensures PassedRun(w, calls[i..]) == PassedRun(Passed(w, calls[i]), calls[i + 1..])
    ensures Written(calls[i..]) == Data(calls[i]) + Written(calls[i + 1..])
  {
    assert calls[i..][1..] == calls[i + 1..];
  }

  lemma EndOfRun(w: Wire, calls: seq<Call>)
    requires calls == []
    ensures PassedRun(w, calls) == w && Written(calls) == []
  {
  }

  /** All data written, in order. */
  function Written(calls: seq<Call>): seq<Byte> {
    if calls == [] then [] else Data(calls[0]) + Written(calls[1..])
  }

  function SignedRun(signer: Signer, w: Wire, calls: seq<Call>): Wire {
    var passed := PassedRun(w, calls);
    var s := signer(Written(calls));
    if s.error.Some? then
      WithError(passed, s.error.value, INTERNAL_ERROR)
    else if s.written == [] then passed
    else Append(passed, s.written)
  }

  // ---------- what the client gets ----------

  predicate IsError(c: Call) {
    c.WriteHeader? && c.code != OK
  }

  /** The first status code other than 200. */
  function FirstError(calls: seq<Call>): Option<int> {
    if calls == [] then None
    else if IsError(calls[0]) then Some(calls[0].code)
    else FirstError(calls[1..])
  }

  /** It is the code of the first `WriteHeader` call with another code, and there is none only without such a call. */
  lemma {:induction false} FirstErrorExact(calls: seq<Call>)
    ensures FirstError(calls).None? <==> forall i :: 0 <= i < |calls| && calls[i].WriteHeader? ==> calls[i].code == 200
    ensures FirstError(calls).Some? ==>
              exists i :: && 0 <= i < |calls| && calls[i] == WriteHeader(FirstError(calls).value)
                          && FirstError(calls).value != 200
                          && forall j :: 0 <= j < i && calls[j].WriteHeader? ==> calls[j].code == 200
  {
    if calls != [] && !IsError(calls[0]) {
      var rest := calls[1..];
      FirstErrorExact(rest);
      assert forall i :: 0 <= i < |rest| ==> rest[i] == calls[i + 1];
      if FirstError(calls).Some? {
        var i :| && 0 <= i < |rest| && rest[i] == WriteHeader(FirstError(calls).value)
                 && forall j :: 0 <= j < i && rest[j].WriteHeader? ==> rest[j].code == 200;
        forall j | 0 <= j < i + 1 && calls[j].WriteHeader? ensures calls[j].code == 200 {
          assert j > 0 ==> calls[j] == rest[j - 1];
        }
        assert calls[i + 1] == rest[i];
      }
    }
  }

  lemma {:induction false} PassedResult(w: Wire, calls: seq<Call>)
    ensures PassedRun(w, calls) == if FirstError(calls).Some? then Commit(w, FirstError(calls).value) else w
    decreases |calls|
  {
    if calls != [] {
      PassedResult(Passed(w, calls[0]), calls[1..]);
    }
  }

  /**
   The signed reply, for every sequence of calls. Signed: the body is the signature of everything
   written, the status the first code other than 200 (else 200). Not signed: no signature byte goes
   out, the body is the error text, the status that first code (else 500, as plain text). Handler
   headers are dropped.
   */
  lemma SignedReply(signer: Signer, headers: Headers, calls: seq<Call>)
    ensures var reply := Finish(SignedRun(signer, Fresh(headers), calls));
            var s, first := signer(Written(calls)), FirstError(calls);
            reply == match s.error
              case None => Reply(if first.Some? then first.value else 200, headers, s.written)
              case Some(e) => Reply(if first.Some? then first.value else 500,
                                    if first.Some? then headers
                                    else headers["Content-Type" := "text/plain; charset=utf-8"]
                                                ["X-Content-Type-Options" := "nosniff"],
                                    e + [10])
  {
    PassedResult(Fresh(headers), calls);
    var s := signer(Written(calls));
    assert [] + s.written == s.written;
    assert s.error.Some? ==> [] + (s.error.value + [10]) == s.error.value + [10];
  }

  // ---------- signed against plain ----------

  /** The first status code or write: what it settles. */
  function FirstCode(calls: seq<Call>): Option<int> {
    if calls == [] then None
    else match calls[0]
      case SetHeader(_, _) => FirstCode(calls[1..])
      case WriteHeader(code) => Some(code)
      case Write(_) => Some(OK)
  }

  /** The headers set before that. */
  function HeadersBefore(headers: Headers, calls: seq<Call>): Headers
    decreases |calls|
  {
    if calls != [] && calls[0].SetHeader?
    then HeadersBefore(headers[calls[0].key := calls[0].value], calls[1..])
    else headers
  }

  /** What settles the status is the first call that is no `SetHeader`: its code, or 200 for a write. */
  lemma {:induction false} FirstCodeExact(headers: Headers, calls: seq<Call>, n: nat)
    requires n <= |calls| && (forall i :: 0 <= i < n ==> calls[i].SetHeader?)
    requires n < |calls| ==> !calls[n].SetHeader?
    ensures FirstCode(calls) == if n == |calls| then None
                                else if calls[n].Write? then Some(200) else Some(calls[n].code)
    ensures HeadersBefore(headers, calls) == HeadersSet(headers, calls, n)
    decreases |calls|
  {
    if n > 0 {
      FirstCodeExact(headers[calls[0].key := calls[0].value], calls[1..], n - 1);
      HeadersSetFirst(headers, calls, n);
    }
  }

  /** The headers after the first `n` calls. */
  function HeadersSet(headers: Headers, calls: seq<Call>, n: nat): Headers
    requires n <= |calls|
  {
    if n == 0 then headers
    else
      var before := HeadersSet(headers, calls, n - 1);
      if calls[n - 1].SetHeader? then before[calls[n - 1].key := calls[n - 1].value] else before
  }

  lemma {:induction false} HeadersSetFirst(headers: Headers, calls: seq<Call>, n: nat)
    requires 0 < n <= |calls| && calls[0].SetHeader?
    ensures HeadersSet(headers, calls, n) ==
            HeadersSet(headers[calls[0].key := calls[0].value], calls[1..], n - 1)
  {
    if n > 1 {
      HeadersSetFirst(headers, calls, n - 1);
    }
  }

  lemma {:induction false} PlainStart(headers: Headers, calls: seq<Call>)
    ensures var w := PlainRun(Fresh(headers), calls);
            && w.status == FirstCode(calls)
            && w.body == Written(calls)
            && (if w.status.Some? then w.sent else w.headers) == HeadersBefore(headers, calls)
    decreases |calls|
  {
    PlainBody(Fresh(headers), calls);
    assert [] + Written(calls) == Written(calls);
    if calls != [] {
      if calls[0].SetHeader? {
        PlainStart(headers[calls[0].key := calls[0].value], calls[1..]);
      } else {
        PlainBody(Apply(Fresh(headers), calls[0]), calls[1..]);
      }
    }
  }

  /** The unsigned reply, for every sequence of calls. */
  lemma PlainReply(headers: Headers, calls: seq<Call>)
    ensures var first := FirstCode(calls);
            Finish(PlainRun(Fresh(headers), calls)) ==
            Reply(if first.Some? then first.value else 200, HeadersBefore(headers, calls), Written(calls))
  {
    PlainStart(headers, calls);
  }

  /** Once 200 is settled, by a write or by that code, no other code follows. */
  predicate Settled(calls: seq<Call>) {
    if calls == [] then true
    else match calls[0]
      case SetHeader(_, _) => Settled(calls[1..])
      case WriteHeader(code) => code != OK || FirstError(calls[1..]).None?
      case Write(_) => FirstError(calls[1..]).None?
  }

  lemma ApplyBody(w: Wire, c: Call)
    ensures Apply(w, c).body == w.body + Data(c)
    ensures w.status.Some? ==> Apply(w, c).status == w.status && Apply(w, c).sent == w.sent
  {
    assert w.body + [] == w.body;
  }

  lemma {:induction false} PlainBody(w: Wire, calls: seq<Call>)
    ensures PlainRun(w, calls).body == w.body + Written(calls)
    ensures w.status.Some? ==> PlainRun(w, calls).status == w.status && PlainRun(w, calls).sent == w.sent
    decreases |calls|
  {
    hide Apply, Data;
    if calls == [] {
      assert w.body + [] == w.body;
    } else {
      ApplyBody(w, calls[0]);
      PlainBody(Apply(w, calls[0]), calls[1..]);
      assert w.body + Data(calls[0]) + Written(calls[1..]) == w.body + Written(calls);
    }
  }

  lemma {:induction false} PlainStatus(w: Wire, calls: seq<Call>)
    requires w.status.None?
    ensures var plain, first := Finish(PlainRun(w, calls)).status, FirstError(calls);
            plain == (if first.Some? then first.value else 200) <==> Settled(calls)
    decreases |calls|
  {
    if calls != [] {
      var w' := Apply(w, calls[0]);
      if calls[0].SetHeader? {
        PlainStatus(w', calls[1..]);
      } else {
        PlainBody(w', calls[1..]);
        ErrorIsNotOk(calls[1..]);
      }
    }
  }

  lemma {:induction false} ErrorIsNotOk(calls: seq<Call>)
    ensures FirstError(calls).Some? ==> FirstError(calls).value != OK
  {
    if calls != [] {
      ErrorIsNotOk(calls[1..]);
    }
  }

  /**
   When signing succeeds, the signed endpoint signs exactly the plain endpoint's body; and it has
   the plain endpoint's status exactly for handlers whose calls are settled.
   */
  lemma SignedMatchesPlain(signer: Signer, headers: Headers, calls: seq<Call>)
    requires signer(Written(calls)).error.None?
    ensures var plain := Finish(PlainRun(Fresh(headers), calls));
            var signed := Finish(SignedRun(signer, Fresh(headers), calls));
            && signed.body == signer(plain.body).written
            && (signed.status == plain.status <==> Settled(calls))
  {
    SignedReply(signer, headers, calls);
    PlainBody(Fresh(headers), calls);
    PlainStatus(Fresh(headers), calls);
    assert [] + Written(calls) == Written(calls);
  }

  /** The status is given at most once, and before any write. */
  ghost predicate StatusFirst(calls: seq<Call>) {
    forall i, j :: 0 <= i < j < |calls| && calls[j].WriteHeader? ==> calls[i].SetHeader?
  }

  lemma {:induction false} NoErrors(calls: seq<Call>)
    requires forall i :: 0 <= i < |calls| ==> !calls[i].WriteHeader?
    ensures FirstError(calls).None?
  {
    if calls != [] {
      assert forall i :: 0 <= i < |calls| - 1 ==> calls[1..][i] == calls[i + 1];
      NoErrors(calls[1..]);
    }
  }

  lemma {:induction false} StatusFirstSettled(calls: seq<Call>)
    requires StatusFirst(calls)
    ensures Settled(calls)
  {
    if calls != [] {
      var rest := calls[1..];
      forall i | 0 <= i < |rest| ensures rest[i] == calls[i + 1] {
      }
      if calls[0].SetHeader? {
        StatusFirstSettled(rest);
      } else {
        NoErrors(rest);
      }
    }
  }
}
