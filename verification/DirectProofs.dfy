/** What is attached is what was prepared and hashed, once, and in time. */
module DirectProofs {
  import opened Common
  import opened DirectSpec
  import Base64
  import Hex
  import Mac

  datatype Event =
    | Begin(now: nat, secret: string, document: Document, certB64: string, p: Preparation, session: string,
            nonce: string)
    | Finish(now: nat, session: string, text: string)
    | Evict(session: string)

  /** One event; session identifiers are never drawn twice, and the cache may drop an entry at any time. */
  function Happen(libs: Libs, d: Desk, e: Event): Desk {
    match e
    case Begin(now, secret, document, certB64, p, session, nonce) =>
      if session in d.started then d else Initiate(libs, d, now, secret, document, certB64, p, session, nonce).0
    case Finish(now, session, text) => Finalize(libs, d, now, session, text).0
    case Evict(session) => d.(cache := d.cache - {session})
  }

  function Run(libs: Libs, d: Desk, events: seq<Event>): Desk
    decreases |events|
  {
    if events == [] then d else Run(libs, Happen(libs, d, events[0]), events[1..])
  }

  /**
   Each session handed out the hash of the attributes over its digest, and cached the
   digest as text and the hole's place.
   */
  ghost predicate HashesFaithful(libs: Libs, started: map<string, Started>) {
    forall k :: k in started ==>
      started[k].prepared.digestHex == Hex.Encode(started[k].preparation.digest) &&
      started[k].prepared.regionStart == started[k].preparation.regionStart &&
      started[k].prepared.regionEnd == started[k].preparation.regionEnd &&
      started[k].hash == Hex.Encode(libs.sha256(libs.attributes(started[k].preparation.digest)))
  }

  /** Cached sessions and temporary files are those of started sessions, unchanged. */
  ghost predicate CacheFaithful(d: Desk) {
    (forall k :: k in d.cache ==> k in d.started && d.cache[k] == d.started[k].prepared) &&
    (forall k :: k in d.tmpFiles ==> k in d.started && d.tmpFiles[k] == d.started[k].preparation.pdf)
  }

  ghost predicate Faithful(libs: Libs, d: Desk) {
    HashesFaithful(libs, d.started) && CacheFaithful(d)
  }

  /**
   A completed session was started, is within its 600 seconds, signs the very
   attributes whose hash was handed out, and its file names the prepared document and
   is the prepared file with a container over those attributes in its hole.
   */
  predicate CompletedFaithfully(libs: Libs, started: map<string, Started>, c: Completed) {
    c.session in started &&
    var s := started[c.session];
    c.at < s.prepared.createdAt + 600 &&
    c.attributes == libs.attributes(s.preparation.digest) &&
    s.hash == Hex.Encode(libs.sha256(c.attributes)) &&
    c.attachment.doctype == s.prepared.document.doctype && c.attachment.docname == s.prepared.document.docname &&
    c.attachment.fileName == s.prepared.document.docname + "_DSC_Signed.pdf" &&
    Base64.PyDecode(s.prepared.certB64).Some? &&
    var container := libs.container(Base64.PyDecode(s.prepared.certB64).value, c.attributes, c.signature);
    var p := s.preparation;
    libs.finish(p.pdf, p.digest, p.regionStart, p.regionEnd, container) == Some(c.attachment.content)
  }

  /** Completions are faithful, one per attached file, at most one per session, and close their session. */
  ghost predicate CompletionsSound(libs: Libs, d: Desk) {
    |d.completed| == |d.files| &&
    (forall i :: 0 <= i < |d.completed| ==>
       d.files[i] == d.completed[i].attachment && CompletedFaithfully(libs, d.started, d.completed[i]) &&
       d.completed[i].session !in d.cache) &&
    (forall i, j :: 0 <= i < j < |d.completed| ==> d.completed[i].session != d.completed[j].session)
  }

  lemma HashesGrow(libs: Libs, started: map<string, Started>, session: string, p: Preparation, prepared: Prepared)
    requires HashesFaithful(libs, started) && prepared.digestHex == Hex.Encode(p.digest)
    requires prepared.regionStart == p.regionStart && prepared.regionEnd == p.regionEnd
    ensures var hash := Hex.Encode(libs.sha256(libs.attributes(p.digest)));
      HashesFaithful(libs, started[session := Started(prepared, p, hash)])
  {
  }

  lemma CacheGrows(d: Desk, session: string, s: Started)
    requires CacheFaithful(d) && session !in d.started
    ensures var cache, tmpFiles := d.cache[session := s.prepared], d.tmpFiles[session := s.preparation.pdf];
      CacheFaithful(d.(cache := cache, tmpFiles := tmpFiles, started := d.started[session := s]))
  {
  }

  lemma InitiateKeepsFaithful(libs: Libs, d: Desk, now: nat, secret: string, document: Document, certB64: string,
                              p: Preparation, session: string, nonce: string)
    requires Faithful(libs, d) && session !in d.started
    ensures Faithful(libs, Initiate(libs, d, now, secret, document, certB64, p, session, nonce).0)
  {
    var prepared := Prepared(certB64, document, Hex.Encode(p.digest), p.regionStart, p.regionEnd, now);
    HashesGrow(libs, d.started, session, p, prepared);
    CacheGrows(d, session, Started(prepared, p, Hex.Encode(libs.sha256(libs.attributes(p.digest)))));
  }

  lemma InitiateKeepsCompletions(libs: Libs, d: Desk, now: nat, secret: string, document: Document, certB64: string,
                                 p: Preparation, session: string, nonce: string)
    requires CompletionsSound(libs, d) && session !in d.started
    ensures CompletionsSound(libs, Initiate(libs, d, now, secret, document, certB64, p, session, nonce).0)
  {
    var d' := Initiate(libs, d, now, secret, document, certB64, p, session, nonce).0;
    forall i | 0 <= i < |d.completed| ensures CompletedFaithfully(libs, d'.started, d.completed[i]) {
      assert CompletedFaithfully(libs, d.started, d.completed[i]);
    }
  }

  // A faithful completion of a cached session joins the others and closes its session.
  lemma CompletionJoins(libs: Libs, d: Desk, c: Completed)
    requires CompletionsSound(libs, d) && CompletedFaithfully(libs, d.started, c) && c.session in d.cache
    ensures CompletionsSound(libs, d.(cache := d.cache - {c.session}, files := d.files + [c.attachment],
                                      completed := d.completed + [c]))
  {
    forall i | 0 <= i < |d.completed| ensures d.completed[i].session != c.session {
      assert d.completed[i].session !in d.cache;
    }
  }

  lemma LastIsFaithful(libs: Libs, d: Desk, now: nat, session: string, text: string)
    requires Faithful(libs, d) && Finalize(libs, d, now, session, text).1.Some?
    ensures var d' := Finalize(libs, d, now, session, text).0;
      |d'.completed| == |d.completed| + 1 &&
      var last := d'.completed[|d.completed|];
      CompletedFaithfully(libs, d.started, last) && last.session == session && session in d.cache && last.at == now &&
      d' == d.(cache := d.cache - {session}, files := d.files + [last.attachment], completed := d.completed + [last])
  {
    Hex.PyRoundTrip(d.started[session].preparation.digest);
  }

  /** Finalize rebuilds the attributes that initiate hashed: the digest survives its trip through hexadecimal text. */
  lemma FinalizeKeeps(libs: Libs, d: Desk, now: nat, session: string, text: string)
    requires Faithful(libs, d) && CompletionsSound(libs, d)
    ensures var d' := Finalize(libs, d, now, session, text).0;
      Faithful(libs, d') && CompletionsSound(libs, d')
  {
    var (d', file) := Finalize(libs, d, now, session, text);
    if file.Some? {
      LastIsFaithful(libs, d, now, session, text);
      CompletionJoins(libs, d, d'.completed[|d.completed|]);
    }
  }

  lemma {:induction false} RunKeeps(libs: Libs, d: Desk, events: seq<Event>)
    requires Faithful(libs, d) && CompletionsSound(libs, d)
    ensures Faithful(libs, Run(libs, d, events)) && CompletionsSound(libs, Run(libs, d, events))
    decreases |events|
  {
    if events == [] {
    } else {
      match events[0] {
        case Begin(now, secret, document, certB64, p, session, nonce) =>
          if session !in d.started {
            InitiateKeepsFaithful(libs, d, now, secret, document, certB64, p, session, nonce);
            InitiateKeepsCompletions(libs, d, now, secret, document, certB64, p, session, nonce);
          }
        case Finish(now, session, text) => FinalizeKeeps(libs, d, now, session, text);
        case Evict(session) =>
      }
      RunKeeps(libs, Happen(libs, d, events[0]), events[1..]);
    }
  }

  /**
   Over every run: each attached file belongs to exactly one completion, which signs
   the attributes whose hash its session handed out, names the session's document and
   falls within the session's 600 seconds; and no session is completed twice.
   */
  lemma AttachmentsAreSessions(libs: Libs, events: seq<Event>)
    ensures CompletionsSound(libs, Run(libs, EMPTY_DESK, events))
  {
    RunKeeps(libs, EMPTY_DESK, events);
  }

  lemma {:induction false} StartedStays(libs: Libs, d: Desk, events: seq<Event>, session: string)
    requires session in d.started
    ensures session in Run(libs, d, events).started && Run(libs, d, events).started[session] == d.started[session]
    ensures session !in d.cache ==> session !in Run(libs, d, events).cache
    decreases |events|
  {
    if events == [] {
    } else {
      StartedStays(libs, Happen(libs, d, events[0]), events[1..], session);
    }
  }

  /**
   A ticket's fields hold no separator when its random draws hold none: the session
   identifier and nonce are hexadecimal.
   */
  lemma TicketPipeFree(libs: Libs, d: Desk, now: nat, secret: string, document: Document, certB64: string,
                       p: Preparation, session: Bytes, nonce: Bytes)
    ensures var t := Initiate(libs, d, now, secret, document, certB64, p, Hex.Encode(session), Hex.Encode(nonce)).1;
      t.Some? ==> Mac.PipeFree(t.value.fields)
  {
    Mac.HexHasNoPipes(session);
    Mac.HexHasNoPipes(nonce);
    Mac.HexHasNoPipes(libs.sha256(libs.attributes(p.digest)));
    AlgorithmPipes();
  }

  lemma AlgorithmPipes()
    ensures Mac.Pipes("sha256") == 0
  {
  }
  /**
   A signing session is refused exactly without a secret or for a certificate that is not
   base64, and then nothing is kept of it; otherwise it stays open for 600 seconds, and
   its ticket names it, the hash of the attributes over the digest, the time and the
   nonce, under the tag that a bridge with the secret accepts within 60 seconds.
   */
  lemma InitiateExactly(libs: Libs, d: Desk, now: nat, secret: string, document: Document, certB64: string,
                        p: Preparation, session: string, nonce: string, later: nat)
    requires Mac.Int64(now) && Mac.Int64(later) && now > 0
    ensures var (d', ticket) := Initiate(libs, d, now, secret, document, certB64, p, session, nonce);
      (ticket.None? <==> secret == "" || Base64.PyDecode(certB64).None?) && (ticket.None? ==> d' == d) &&
      (ticket.Some? ==>
       var f := ticket.value.fields;
       f.session == session && f.nonce == nonce && f.timestamp == now && f.algorithm == "sha256" &&
       Hex.GoDecode(f.hash) == Some(libs.sha256(libs.attributes(p.digest))) &&
       (Open(d', session, later) <==> later < now + 600) &&
       (Mac.Accepts(libs.mac, secret, f, ticket.value.tag, later) <==> Mac.Distance(later, now) <= 60))
  {
    Hex.GoRoundTrip(libs.sha256(libs.attributes(p.digest)));
    Mac.SkewExact(later, now);
    var fields := Mac.Fields(session, Hex.Encode(libs.sha256(libs.attributes(p.digest))), "sha256", now, nonce);
    Mac.PayloadsAgree(fields);
  }

  /**
   Finalize is refused exactly for a session that is not open, or for a signature,
   certificate, digest or file the libraries cannot read or finish; and then nothing
   changes.
   */
  lemma FinalizeRefusedExactly(libs: Libs, d: Desk, now: nat, session: string, text: string)
    requires Faithful(libs, d)
    ensures var (d', file) := Finalize(libs, d, now, session, text);
      (file.None? ==> d' == d) &&
      (file.Some? <==>
       session in d.cache && now < d.cache[session].createdAt + 600 && session in d.tmpFiles &&
       Base64.DecodeSignature(text).Some? && Base64.PyDecode(d.cache[session].certB64).Some? &&
       SignedFile(libs, d.cache[session], d.tmpFiles[session], d.started[session].preparation.digest,
                  Base64.PyDecode(d.cache[session].certB64).value, Base64.DecodeSignature(text).value).Some?)
  {
    if session in d.cache {
      Hex.PyRoundTrip(d.started[session].preparation.digest);
    }
  }
}
