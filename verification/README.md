# Verified model of the DSC bridge and its Frappe server

The repository lets a Frappe site sign documents and approvals with a USB token on the
user's own machine. A Go agent, the bridge, listens on localhost, talks PKCS#11 to the
token and keeps the sites it is paired with; the site issues pairing codes, prepares
documents, authenticates what is to be signed with an HMAC, and embeds the signature.
This project models that protocol and the byte formats in it and proves what they
promise, over every input and every run.

Each stateful component appears twice: as functions on values (the `…Spec` modules) and
as a class whose methods change fields step by step as the source does. The methods
are proved equal to the functions, and the properties are proved about the functions:
per call, as invariants over unbounded runs, and across both machines.

| file | what it holds |
|---|---|
| `Common`, `Hex`, `Base64` | options and byte strings; both sides' text encodings of bytes |
| `Mac` | the payload, tag and time window of a sign request |
| `Der`, `Ocsp` | the hand-written DER encoder against an independent strict decoder; the OCSP request |
| `Aia` | the issuer walk and the byte-slice reader |
| `KeystoreSpec`, `Keystore`, `KeystoreProofs` | the two-tier keystore: a plain map over every run, restarts and failing writes included |
| `KeystoreCrash`, `KeystoreHmac` | which tokens and secrets a crash can leave, and when HMAC checking goes |
| `PinCache`, `Pkcs11`, `Pkcs11Handler` | the PIN cache; the token with its retry counter |
| `BridgeSpec`, `Bridge`, `BridgeProofs`, `BridgeReplies` | the bridge's HTTP service, the gate in front of the token, and every answer |
| `PinProofs`, `PinTight` | how many retries cached PINs can cost, and that the bound is reached |
| `PairingSpec`, `Pairing`, `PairingProofs` | pairing codes, registrations and the shared secret on the server |
| `DirectSpec`, `Direct`, `DirectProofs` | two-phase document signing on the server |
| `System`, `SystemProofs`, `SystemResults`, `SystemReplies` | server and bridge pairing over a lossy network, with writes that fail in every way and restarts |
| `SystemHistory`, `SystemLedger`, `SystemLink` | in those runs: what a pairing changes, what became of every redeemed code, when a site shares the secret |
| `EndToEnd` | one document from its preparation to the attached signature, and that it gets there |
| `Protocol` | runs of everything together: pairing, restarts, documents, sign requests, tokens |
| `AllowList`, `AllowListProofs`, `AllowListAnswers` | which certificates are required and accepted, and why not |
| `Counterexamples` | one input for each property the code lacks |

The outside world enters as parameters: the clock, random draws (never repeated within
a run), the keychain's availability, how each file write ends (done, refused, cut short
after truncating the file, or complete with an error on closing), the user's consent,
the network, the token's answers, what the database accepts and which of several matching
rows it picks. SHA-256 and HMAC are arbitrary functions, assumed injective only where a
lemma says so.

## Where the code falls short of a property

These properties do not hold of the code on all inputs. Each has a lemma stating
exactly when they do, and `Counterexamples` has an input for each on which they fail.

- A signature whose base64 text is also hexadecimal text, such as three zero bytes, is
  read back as other bytes (`Base64.SignatureTransportExact`; `Base64.HexGroupMisread` says which).
  Lengths that are no multiple of three are safe.
- DER bodies from 65536 bytes on get a wrong length; serial numbers that are not positive
  get a wrong INTEGER (`Der.EncoderInvertsExactly`, `Der.IntegerExact`).
- The 64-bit time skew overflows on clocks set far before 1970 (`Mac.SkewExact`).
- RSA signing wraps a hash of any length as if it had 32 bytes (`Pkcs11.SignedDataExact`).
- A site whose URL starts with `hmac:` can overwrite another site's secret
  (`KeystoreProofs.PrefixClashExact`); no URL the bridge can post to does.
- When the keychain comes or goes, a read may find an older value in the other tier
  (`KeystoreProofs.ReadAfterWriteExact`), `RemoveSite` may leave a secret behind
  (`KeystoreProofs.RemoveErasesExact`), as it may when a deletion from the file fails
  (`KeystoreProofs.RunRefines`), and a crash inside `RemoveSite` may bring an old token or
  HMAC secret back (`KeystoreCrash.RemoveCrashExact`, `KeystoreHmac.RemoveSecretCrashExact`).
- A failed insert uses up a pairing code, and a secret that cannot be stored after the
  insert leaves a registration nobody was told of (`PairingProofs.ValidateExact`).
- A file write that is cut short leaves a file that does not parse. While the keychain is
  down that loses every site's token and HMAC secret, and with the secrets the check on
  sign requests (`KeystoreProofs.LossesExact`, `SystemResults.PairingLosesExactly`,
  `KeystoreHmac.AddSiteUnchecksExactly`); a crash can do the same
  (`KeystoreHmac.SetCrashUnchecksExactly`). Cut short metadata keeps the bridge from
  starting (`SystemResults.RestartFailsExactly`).
- A page is told that it is paired even if the last write then cuts the token file short
  (`SystemReplies.PairedForGood`).
- A failed save followed by a restart leaves the bridge with an older registration name
  for a newer token (`SystemResults.PairedSitesVerify`), or with a token and no site
  (`SystemResults.OrphansExactly`).
- A ticket can be presented again within its 60 seconds (`EndToEnd.ReplayExactly`).
- Among certificates that share a fingerprint the first in the list decides, so the order
  of the list can matter (`AllowListProofs.OrderIndependentExactly`).
- Approval can refuse an Administrator whom signing accepts, and of whom it requires
  nothing (`AllowListProofs.ApprovalAndSigningAgreeExactly`, `AllowListProofs.RequiredExactly`).
- At login a device may require nothing of a user and accept nothing from them, and check
  an Administrator of whom it requires nothing (`AllowListProofs.LoginRequiredExactly`).

Where code and documentation differ, the model follows the code: `dsc_bridge/README.md`
says that every request but two needs a site token and that tokens rest in the keychain
only; the code makes the token optional, exempts `/v1/mac_address` too, and falls back to
a file.

## Model

| member | source | states |
|---|---|---|
| `EndToEnd.SignedEndToEnd` | dsc_integration/api/direct_dsc.py:227-346 | From every reachable state of both machines: if the bridge answers a ticket with a signature, the key was given the prepared document's hash, as it is or in a DigestInfo, and whatever happens in between, a file attached for that answer is the prepared file of that document, in time, with a container over the attributes of the prepared digest, whose SHA-256 that hash is, and the token's own signature exactly when its base64 text is not hexadecimal. |
| `EndToEnd.AnswerIsAttached` | dsc_bridge/handlers.go:301-401 | The same for any bridge that holds the server's secret for the site, whatever run led there. |
| `EndToEnd.SignedAndAttached` | dsc_integration/api/direct_dsc.py:227-346 | And it succeeds: in every reachable state in which the site is linked under an unchanged secret, a ticket presented unmodified within 60 seconds to a token that will sign, and taken back in time, ends with the file attached. |
| `EndToEnd.EverySiteCanSign` | dsc_integration/api/direct_dsc.py:115-346 | For every site of the server that can be posted to and every document that can be finished there is such a run, from an empty installation to the attached file. |
| `EndToEnd.TicketReachesTokenExactly` | dsc_bridge/handlers.go:302-362 | With an ideal MAC, a request carrying a ticket's tag reaches the token if and only if its five fields are the ticket's own and the clocks are within 60 seconds; the token then gets the SHA-256 of the prepared attributes. |
| `EndToEnd.TokenSigns` | dsc_bridge/pkcs11_handler.go:250-312 | Once the token is reached, a signature is answered exactly when the session opens, C_Login does not fail before the PIN, the token is unlocked, the PIN is right, the key is RSA or EC and signing succeeds; it carries the request's session and that signature and certificate in base64, and the key was given the hash. |
| `EndToEnd.FinalizeExact` | dsc_integration/api/direct_dsc.py:268-340 | What finalize records for a session as it was prepared: that document, the attributes of that digest, the file made of them, in time, and the original signature exactly when it survives the transport. |
| `EndToEnd.FinalizeSucceeds` | dsc_integration/api/direct_dsc.py:268-330 | For a signature that survives the transport, finalize attaches a file exactly within the session's 600 seconds and when the container can be inserted. |
| `EndToEnd.SharedSecret` | dsc_integration/dsc_integration/doctype/dsc_agent_settings/dsc_agent_settings.py:12-22 | In every reachable state server and bridge hold the same secret for a linked site, until an administrator changes it. |
| `EndToEnd.ReplayExactly` | dsc_bridge/handlers.go:404-417 | Presented again, a ticket reaches the token again exactly while the bridge's clock is within 60 seconds of it, with the same hash. |
| `Protocol.LinkedSitesSignPrepared` | dsc_bridge/handlers.go:279-372 | Over every run of the whole protocol in which only the server makes tags, every token call for a linked site, or for one whose secret the bridge knows, is over the hash of a session the server started, within 60 seconds of its start; and every attached file is a faithful completion of a session of its own. |
| `Protocol.LinkedRequestSignsPrepared` | dsc_bridge/handlers.go:279-372 | After any such run, a token call for the next request from a linked site is over the hash of a session the server has started, within 60 seconds of its start. |
| `Protocol.CheckedCallSigns` | dsc_bridge/handlers.go:307-316 | One such call signs what the session named in its ticket handed out. |
| `Protocol.RecordedExactly` | dsc_bridge/handlers.go:360-376 | The runs record every call and every ticket as it was made, and a restart forgets the PINs. |
| `SystemResults.PairedSitesVerify` | dsc_bridge/handlers.go:157-195 | In every reachable state, through lost messages, writes that fail in any way and restarts, each paired site of the server was approved and redeemed its own live code; its token verifies to exactly the registration made for that code while that is active and to nothing afterwards, unless the token went with a token file cut short, and then there is neither token nor HMAC secret; the stored name is that registration exactly when the entry is not older than the token. |
| `SystemResults.SavedRunsAreNeverStale` | dsc_bridge/keystore.go:87-92 | Where every save reaches the file and no token is stored under an error, each entry of the server's names the registration behind its token, no token is without an entry, the bridge runs and would start again. |
| `SystemResults.LinkedSecretIsCurrent` | dsc_bridge/handlers.go:185-189 | The HMAC secret the bridge finds for a linked site is the one handed out with its code, and the server's current one within the same epoch. |
| `SystemResults.PairingEffect` | dsc_bridge/handlers.go:170-189 | A pairing leaves its own site entry, token and secret exactly as far as its three writes went. |
| `SystemResults.OthersKeptExactly` | dsc_bridge/keystore.go:74-92 | A pairing leaves every other site's entry as it was, and its token and secret exactly unless the token file held one and is cut short. |
| `SystemResults.PairingLosesExactly` | dsc_bridge/keystore.go:236-244 | A token the bridge could read, the paired site's or another's, is gone from the store after a pairing exactly when a write of it cut the token file short while the keychain was down. |
| `SystemResults.NothingLostOver` | dsc_bridge/keystore.go:236-244 | Over a run without such a write, every token and secret the store answered it still answers; with the keychain up there is none. |
| `SystemResults.RestartFailsExactly` | dsc_bridge/main.go:70-73 | In every reachable state the metadata does not open exactly when the run's last write of it that was not refused was cut short, and exactly then a restart ends the bridge. |
| `SystemResults.EndedStays` | dsc_bridge/main.go:70-73 | A bridge that has ended stays so through every later event, with its store as it was. |
| `SystemResults.OrphansExactly` | dsc_bridge/keystore.go:78-91 | The bridge holds a token under a URL it is not paired with exactly when its entry was dropped (a token stored under an error, or a restart after a failed save) and the token was not lost since; every token under a URL of the server, paired or not, was granted by the server for a code the approved URL redeemed. |
| `SystemResults.PairingReads` | dsc_bridge/handlers.go:170-189 | What every key reads as after a pairing: gone with the file, just written, or as it was. |
| `SystemReplies.PairedForGood` | dsc_bridge/handlers.go:170-194 | After a page is told that its site is paired, in any reachable state, the bridge lists the site through every later event and restart, and has a token for it as long as no write cuts the token file short. |
| `SystemReplies.PairedExactly` | dsc_bridge/handlers.go:163-194 | For a site of the server the page is told so exactly when the server redeems the code, the database commits, no message is lost, and token and entry are stored. |
| `SystemLedger.SurplusExact` | dsc_integration/api/agent.py:75-102 | In every reachable state the server's registrations are one for one those behind the tokens the bridge holds, plus the surplus of codes whose fate is recorded as elsewhere, unstored, superseded or lost with the file; the four lemmas below say what puts a code there. |
| `SystemLedger.NewCodeFate` | dsc_bridge/handlers.go:163-189 | A code the server redeems in a pairing becomes unstored exactly when no answer is delivered or its token's write does not land, lost with the file exactly when that lands and the file is cut short at the secret's write, and has no fate exactly when the bridge now holds its token. |
| `SystemLedger.HeldCodeFate` | dsc_bridge/keystore.go:74-92 | A code behind a held token becomes superseded in a pairing exactly when its own URL is paired and the new token lands, lost with the file exactly when the file is cut short and its URL keeps it, and stays held otherwise. |
| `SystemLedger.ElsewhereFate` | dsc_integration/api/agent.py:60-83 | Outside the bridge's pairings a code gets a fate exactly when another agent redeems it: a live code, with a new draw, that the database does not refuse. |
| `SystemLedger.FatesAreFinal` | dsc_integration/api/agent.py:61-66 | Over every run, a fate never changes. |
| `SystemLedger.RunBalances` | dsc_integration/api/agent.py:60-102 | Every run keeps that balance of redeemed codes. |
| `SystemLink.PairingLinksExactly` | dsc_bridge/handlers.go:157-189 | A pairing in which the server redeems its code links the site under that code exactly when the database commits, the reply is delivered and all three writes land; the secret is then the server's current one. |
| `SystemLink.LinkedExactly` | dsc_bridge/handlers.go:182-189 | The linked sites after any event: a pairing adds its site when its secret lands, takes it out when only its token does, and all of them when it cuts the token file short; a restart keeps those whose entry was saved; nothing else changes them. |
| `SystemLink.LinkedSiteReachable` | dsc_bridge/handlers.go:135-195 | Every site of the server that can be posted to is linked by issuing a code and redeeming it. |
| `SystemHistory.PairingHistory` | dsc_bridge/handlers.go:163-189 | What a pairing adds to the history of both machines, stated by how its three writes ended: the code behind the URL, what was lost, linked, stale and dropped, and whether the metadata is torn. |
| `SystemHistory.ApprovedByUser` | dsc_bridge/handlers.go:152-160 | Over every run a URL counts as approved only if the user agreed to it. |
| `SystemProofs.RunKeepsCoupled` | dsc_bridge/handlers.go:135-195 | The coupling of both machines' states is kept by every run of server events, pairings with any site, however their writes end, and restarts. |
| `SystemProofs.AnswersAreGenuine` | dsc_integration/api/agent.py:60-102 | An answer that arrives from the server comes with a registration that did not exist before, for a code not redeemed before, holding the very token and secret answered. |
| `SystemProofs.ReopenKeeps` | dsc_bridge/keystore.go:49-68 | A restart keeps the coupling, also one that fails. |
| `SystemProofs.StagesAreServed` | dsc_bridge/handlers.go:169-189 | The three writes whose history the runs keep are what HandlePair does to the keystore. |
| `SystemProofs.BridgePartKeeps` | dsc_bridge/handlers.go:169-189 | A pairing keeps the coupling, whatever its writes come to. |
| `System.PostableIsPlain` | dsc_bridge/handlers.go:210-220 | No URL that can be posted to starts with the prefix of the secrets' keys. |
| `System.HttpIsPostable` | dsc_bridge/handlers.go:208-223 | Every URL that begins with http: or https: can be paired with. |
| `Mac.PayloadsAgree` | dsc_bridge/handlers.go:419-425 | The bridge's joined list and the server's format string build the same payload. |
| `Mac.PayloadExample` | dsc_integration/api/direct_dsc.py:233-233 | One payload, written out. |
| `Mac.PayloadBinding` | dsc_integration/api/direct_dsc.py:231-233 | Separator-free fields share their payload with no other fields, whatever separators those hold. |
| `Mac.PipesShiftFields` | dsc_integration/api/direct_dsc.py:233 | A separator inside a field makes the payload ambiguous, so the condition is needed. |
| `Mac.HexHasNoPipes` | dsc_integration/api/direct_dsc.py:227-232 | Hexadecimal sessions, hashes and nonces hold no separator. |
| `Mac.SkewExact` | dsc_bridge/handlers.go:411-417 | The wrapping 64-bit skew decides the 60-second window correctly exactly unless it overflows; on clocks after 1970 it is the true distance. |
| `Mac.VerifyHMAC` | dsc_bridge/handlers.go:406-435 | Accepts exactly positive timestamps within the window whose tag is the server's tag for the same fields. |
| `Mac.AuthenticExactly` | dsc_bridge/handlers.go:406-435 | With an ideal MAC, the server's tag is accepted on exactly the server's own fields within the window. |
| `Hex.GoRoundTrip` | dsc_bridge/handlers.go:341 | hex.DecodeString inverts the hexadecimal text of every byte string. |
| `Hex.PyRoundTrip` | dsc_integration/api/direct_dsc.py:287 | bytes.fromhex inverts it too. |
| `Hex.EncodeInjective` | dsc_bridge/handlers.go:429 | Different byte strings have different hexadecimal texts. |
| `Hex.PyDecodeExact` | dsc_integration/api/direct_dsc.py:276 | On text without white space bytes.fromhex succeeds exactly for an even number of hexadecimal digits. |
| `Hex.GoDecodeExact` | dsc_bridge/handlers.go:345-349 | The bridge's decoder accepts exactly the even-length strings of hexadecimal digits in either case. |
| `Hex.GoDigitsAt` | dsc_bridge/handlers.go:345-349 | It reads two digits a byte, the high one first. |
| `Hex.EncodedDigits` | dsc_integration/api/direct_dsc.py:227-235 | Every byte is written as two small digits, the high one first. |
| `Hex.SpaceBetweenPairs` | dsc_integration/api/direct_dsc.py:275-276 | The server's decoder skips white space between two pairs of digits. |
| `Hex.SpaceInPair` | dsc_integration/api/direct_dsc.py:275-278 | White space inside a pair is an error, so that the text is then read as base64. |
| `Hex.SpacesExactly` | dsc_integration/api/direct_dsc.py:275-276 | White space there is the six ASCII characters. |
| `Base64.RoundTrip` | dsc_bridge/handlers.go:395 | Python's lenient decoder inverts Go's encoder on every byte string. |
| `Base64.EncodedShape` | dsc_bridge/handlers.go:395 | The text holds no white space, and is hexadecimal text exactly for whole groups whose sextets all print as hexadecimal digits. |
| `Base64.SignatureTransportExact` | dsc_integration/api/direct_dsc.py:275-278 | Hexadecimal first, base64 next returns the original signature exactly when it is empty or does not look like hexadecimal. |
| `Base64.PaddedSignatureTransport` | dsc_integration/api/direct_dsc.py:275-278 | Signatures whose length is no multiple of three always arrive unchanged. |
| `Base64.HexGroupMisread` | dsc_integration/api/direct_dsc.py:275-278 | Three bytes that print as hexadecimal digits arrive as the two bytes those digits spell. |
| `Base64.EncodedLength` | dsc_bridge/handlers.go:395 | The text has four characters for each group of up to three bytes. |
| `Base64.StandardAlphabet` | dsc_bridge/handlers.go:394-395 | The alphabet is that of RFC 4648. |
| `Base64.SextetsSpell` | dsc_bridge/handlers.go:394-395 | The four values of a group spell its three bytes, most significant bits first. |
| `Base64.ForeignIsSkipped` | dsc_integration/api/direct_dsc.py:275-278 | The server's decoder skips a character outside the alphabet wherever it stands. |
| `Base64.UnpaddedExact` | dsc_integration/api/direct_dsc.py:275-278 | Text of the alphabet alone decodes exactly when it is whole groups of four. |
| `Base64.PaddingExact` | dsc_integration/api/direct_dsc.py:275-278 | Behind data, padding is skipped before the third character of a group, ends the input behind the third whatever follows, and behind the second takes two to end it. |
| `Base64.BeyondAsciiRefused` | dsc_integration/api/direct_dsc.py:275-278 | Text with a character beyond ASCII is an error in both readings. |
| `Der.Asn1Wrap` | dsc_bridge/aia.go:214-232 | Writes header and contents so that the strict decoder reads back tag and contents exactly under 65536 bytes and for single-octet tags. |
| `Der.EncoderInvertsExactly` | dsc_bridge/aia.go:214-232 | Decoding at the front of any stream returns tag, contents and the rest, exactly under those conditions. |
| `Der.EncodingUnique` | dsc_bridge/aia.go:220-229 | Whatever the strict decoder accepts under 65536 bytes is what the encoder writes, so the length has its shortest form. |
| `Der.WrapAllReadsBack` | dsc_bridge/aia.go:190-196 | A sequence of encoded values splits back into those values. |
| `Der.SplitUnique` | dsc_bridge/aia.go:190-196 | Two lists of values with the same encoding are the same list. |
| `Der.IntegerExact` | dsc_bridge/aia.go:202-208 | The INTEGER contents of a serial are its minimal two's complement exactly when it is positive. |
| `Der.IntegerUnique` | dsc_bridge/aia.go:202-208 | They are the only minimal two's complement of a positive serial. |
| `Der.MinBytesUnique` | dsc_bridge/aia.go:164 | Bytes to number to bytes is the identity at every length, without a leading zero. |
| `Der.Asn1IntegerReadsBack` | dsc_bridge/aia.go:202-208 | An encoded positive serial of any fitting length reads back as one INTEGER with that value. |
| `Ocsp.RequestReadsBackExact` | dsc_bridge/aia.go:146-186 | Read by the independent decoder, the request is exactly the five nested levels around one CertID with the given hashes and serial and nothing trailing, if and only if the serial is positive and the request fits. |
| `Ocsp.RequestInjective` | dsc_bridge/aia.go:146-186 | Different queries have different requests. |
| `Ocsp.Sha1RequestsFit` | dsc_bridge/aia.go:161-172 | With SHA-1 hashes every positive serial of up to 65000 octets fits. |
| `Aia.FetchCertChain` | dsc_bridge/aia.go:20-57 | Over any fetch graph, ends with the longest issuer path of at most five certificates that stops at a missing link, a self-issued certificate, a failed fetch or an unparsable certificate, which is itself included; fails exactly on an unparsable leaf. |
| `Aia.StepsExactly` | dsc_bridge/aia.go:20-57 | Each step went to the first URL of a parsed certificate that is not its own issuer, and a shorter walk ended at one that does not parse, has no URL, is its own issuer, or whose issuer could not be fetched. |
| `Aia.LongestPathUnique` | dsc_bridge/aia.go:29-54 | That description determines the result, and a larger limit only extends it. |
| `Aia.EndlessPathsAreCut` | dsc_bridge/aia.go:29-30 | On cycles and other endless paths the walk returns exactly five certificates. |
| `Aia.ByteSliceReader.Read` | dsc_bridge/aia.go:249-256 | Copies the next bytes in order, as many as fit, touches no more of the buffer, and reports end of file exactly with nothing left. |
| `Aia.ByteSliceReader.ReadAll` | dsc_bridge/aia.go:249-256 | A loop reading into non-empty buffers until end of file ends, with the whole data. |
| `Aia.ReadsDeliverPrefix` | dsc_bridge/aia.go:249-256 | What reads into buffers of any sizes hand out is the data from the position on as far as all buffers together reach, and the position is at the end exactly when they had room for everything. |
| `Aia.ByteSliceReader.ReadMany` | dsc_bridge/aia.go:249-256 | A sequence of Read calls with any buffer sizes hands out exactly that. |
| `Aia.ByteSliceReader.ReadOnceMore` | dsc_bridge/aia.go:249-256 | One more Read after any sequence reports end of file exactly when the others had room for everything, and otherwise hands out what follows. |
| `Keystores.NewKeystore` | dsc_bridge/keystore.go:49-68 | Opens exactly the saved map, nothing if the file is absent, and fails if it does not parse. |
| `Keystores.Keystore.AddSite` | dsc_bridge/keystore.go:74-92 | Acts as the value step that KeystoreProofs and KeystoreCrash reason about, however its writes end; after a success the token reads back under the same keychain availability. |
| `Keystores.Keystore.Token` | dsc_bridge/keystore.go:107-128 | Finds what the plain-map reading says: the keychain's value if it answers, else the file's, for paired sites only. |
| `Keystores.Keystore.ValidateToken` | dsc_bridge/keystore.go:132-138 | True exactly when the stored token is the given one. |
| `Keystores.Keystore.SetHMACSecret` | dsc_bridge/keystore.go:142-152 | Acts as the value step; after a success the secret of a paired site reads back, and an empty secret changes nothing. |
| `Keystores.Keystore.HMACSecret` | dsc_bridge/keystore.go:156-169 | Finds the secret in either tier, the empty string for a paired site without one, an error for any other. |
| `Keystores.Keystore.RemoveSite` | dsc_bridge/keystore.go:192-210 | Acts as the value step whose erasure RemoveErasesExact and RunRefines state. |
| `Keystores.Keystore.SaveMetadata` | dsc_bridge/keystore.go:212-218 | What reopening will find is the map without tokens, what it was, or a file that does not parse, as the write ends. |
| `Keystores.Keystore.LoadTokenFile` | dsc_bridge/keystore.go:226-234 | An absent or unparsable token file is an empty map. |
| `Keystores.Keystore.SetTokenFile` | dsc_bridge/keystore.go:236-244 | Afterwards the file answers for this key, and all others as before; or is as it was; or was cut short and answers for none. |
| `Keystores.Keystore.DeleteTokenFile` | dsc_bridge/keystore.go:254-268 | Afterwards the file no longer answers for this key, and is gone with its last one; or is as it was; or was cut short in the rewriting. |
| `Keystores.Keystore.WriteTokenFile` | dsc_bridge/keystore.go:243-267 | Success exactly when the write is done; the file is the new one, the old one, or cut short. |
| `KeystoreProofs.RunRefines` | dsc_bridge/keystore.go:74-210 | With fixed keychain availability and no site named `hmac:…`, a run of writes, reads, removals and restarts, however its writes end, stands for a plain map after every step exactly when each removal erases its site from the file where the file holds it, and cuts away nothing only the file holds; it then answers as the plain map does. |
| `KeystoreProofs.OneTierRuns` | dsc_bridge/keystore.go:74-210 | That is so for every run with the keychain down, and with it up from a file that holds nothing. |
| `KeystoreProofs.DeletingRuns` | dsc_bridge/keystore.go:192-210 | And for every run whose deletions from the file succeed. |
| `KeystoreProofs.EmptyRefines` | dsc_bridge/keystore.go:55-59 | An installation without files starts as the empty plain map. |
| `KeystoreProofs.ReloadIsExact` | dsc_bridge/keystore.go:49-68 | After every run whose saves reach the file, reopening rebuilds the map in memory exactly, filed by URL and without tokens. |
| `KeystoreProofs.NoTokenInMetadata` | dsc_bridge/keystore.go:27-33 | A save writes every entry without its token, whatever is in memory. |
| `KeystoreProofs.ReadAfterWriteExact` | dsc_bridge/keystore.go:107-128 | Across a change of availability, a read finds the last write exactly when the other tier does not hold another value. |
| `KeystoreProofs.PrefixClashExact` | dsc_bridge/keystore.go:19-21 | Storing a token changes another site's secret exactly when the URL is that secret's key, or when a file that held the secret is cut short. |
| `KeystoreProofs.RemoveErasesExact` | dsc_bridge/keystore.go:192-210 | RemoveSite erases token and secret from both tiers exactly when the keychain is up if it holds one, and a file that holds one is rewritten without it or cut short. |
| `KeystoreProofs.LossesExact` | dsc_bridge/keystore.go:212-268 | A run passes through the states and answers it would have had if every failing write had left its file untouched, exactly when no write is cut short while its file holds something. |
| `KeystoreCrash.AddIsItsWrites` | dsc_bridge/keystore.go:78-91 | The storage writes of AddSite, in order, are its effect. |
| `KeystoreCrash.RemoveIsItsWrites` | dsc_bridge/keystore.go:199-209 | The storage writes of RemoveSite, in order, are its effect. |
| `KeystoreCrash.AddSavesLast` | dsc_bridge/keystore.go:78-91 | The token is written before the metadata: with the save refused, AddSite leaves what all but its last write leave. |
| `KeystoreCrash.RemoveSavesLast` | dsc_bridge/keystore.go:196-209 | RemoveSite erases every secret before it saves. |
| `KeystoreCrash.AddCrashSafe` | dsc_bridge/keystore.go:74-92 | Stopping anywhere in AddSite, even inside a file write, leaves every token its old value, its new one or an error. |
| `KeystoreCrash.RemoveCrashSafe` | dsc_bridge/keystore.go:192-210 | The same for RemoveSite where neither dropped key is shadowed. |
| `KeystoreCrash.RemoveCrashExact` | dsc_bridge/keystore.go:192-210 | RemoveSite has that property at every stopping point exactly when neither key hides another value in the file. |
| `KeystoreCrash.ReachableCrashSafe` | dsc_bridge/keystore.go:49-218 | Reached from an empty installation with fixed availability and successful saves, every store has it for the next AddSite and RemoveSite. |
| `KeystoreHmac.SetSecretUnchecksExactly` | dsc_bridge/keystore.go:142-152 | Storing a secret switches off the HMAC check of a site that had it exactly when it cuts short the token file while the keychain is down. |
| `KeystoreHmac.AddSiteUnchecksExactly` | dsc_bridge/keystore.go:74-92 | So does storing a site's token. |
| `KeystoreHmac.RemoveSiteUnchecksExactly` | dsc_bridge/keystore.go:192-210 | Removing a site does it to another exactly when that one's secret is in the file alone and a rewrite of the file is cut short. |
| `KeystoreHmac.SetIsItsWrites` | dsc_bridge/keystore.go:142-152 | The storage write of SetHMACSecret is its effect. |
| `KeystoreHmac.SetCrashSafe` | dsc_bridge/keystore.go:142-152 | Stopping anywhere in SetHMACSecret leaves every token its old value, its new one or an error. |
| `KeystoreHmac.SetCrashUnchecksExactly` | dsc_bridge/keystore.go:142-152 | Stopping in SetHMACSecret can switch a site's HMAC check off exactly while the keychain is down. |
| `KeystoreHmac.AddCrashUnchecksExactly` | dsc_bridge/keystore.go:74-92 | Stopping in AddSite can do so exactly then. |
| `KeystoreHmac.RemoveCrashUnchecksItself` | dsc_bridge/keystore.go:192-210 | Stopping RemoveSite before its last write leaves the site paired and unchecked. |
| `KeystoreHmac.RemoveCrashUnchecksExactly` | dsc_bridge/keystore.go:192-210 | Stopping it can uncheck another site exactly when that one's secret is in the file alone and the removal rewrites the file. |
| `KeystoreHmac.SetSecretCrashSafe` | dsc_bridge/keystore.go:142-152 | Stopping anywhere in SetHMACSecret leaves every HMAC secret its old value, its new one, none or an error. |
| `KeystoreHmac.AddSecretCrashSafe` | dsc_bridge/keystore.go:74-92 | So does stopping anywhere in AddSite. |
| `KeystoreHmac.RemoveSecretCrashExact` | dsc_bridge/keystore.go:192-210 | RemoveSite has that property at every stopping point exactly when the keychain hides no other, non-empty secret in the file under either key it drops. |
| `PinCaches.PINCache.Get` | dsc_bridge/pincache.go:25-33 | The PIN last set and not forgotten; none for an empty fingerprint. |
| `PinCaches.PINCache.Set` | dsc_bridge/pincache.go:36-43 | Stores non-empty PINs under non-empty fingerprints only, which every cache keeps. |
| `PinCaches.PINCache.Drop` | dsc_bridge/pincache.go:48-55 | Forget: drops exactly that fingerprint. |
| `Pkcs11.SignHashEffect` | dsc_bridge/pkcs11_handler.go:257-312 | Only the addressed token's counter changes, down by one exactly on a wrong PIN; a signature needs the right PIN; a wrong PIN or a locked token that gets as far as the PIN is always an error that drops the cached one; a login that fails earlier costs nothing. |
| `Pkcs11.SignedDataExact` | dsc_bridge/pkcs11_handler.go:250-312 | A key is given something to sign exactly after a login with the right PIN at an RSA or EC key, and always before a signature: an EC key the hash, an RSA key a DigestInfo of it exactly if the hash has 32 bytes. |
| `Pkcs11.FindCert` | dsc_bridge/pkcs11_handler.go:213-246 | The token found is known, plugged in and holds the certificate's key pair; none is found exactly if no known token that is plugged in does. |
| `Pkcs11.DigestInfoExact` | dsc_bridge/pkcs11_handler.go:293-296 | The prefix and a hash are its DigestInfo exactly for 32-byte hashes. |
| `Pkcs11.CondemnsExactly` | dsc_bridge/errors.go:105-111 | The errors that drop a cached PIN are exactly incorrect, invalid, wrong length and locked. |
| `Pkcs11Handlers.PKCS11Handler.SignHash` | dsc_bridge/pkcs11_handler.go:250-334 | Acts as the login and signing step of SignHashEffect, and gives the key exactly what SignedDataExact says. |
| `Bridge.Handlers.Admit` | dsc_bridge/server.go:47-88 | Admits what BootstrapIsOpen and GateExactly say: bootstrap requests, and requests of paired origins whose token, if given, is the stored one. |
| `Bridge.Handlers.CheckHMAC` | dsc_bridge/handlers.go:301-325 | Passes exactly authenticated requests, and others only where no secret is known for the origin. |
| `Bridge.Handlers.HandleSign` | dsc_bridge/handlers.go:279-402 | Acts as the value step whose answers, calls and cache RefusedExactly, CallAnswered and CacheAfterCall state. |
| `Bridge.Handlers.HandlePair` | dsc_bridge/handlers.go:135-195 | Acts as the value step whose answers PairAnsweredExactly and whose store PairedIsStored state. |
| `Bridge.Handlers.ServeHTTP` | dsc_bridge/server.go:102-123 | Acts as one step of the runs; reaches the token exactly for requests that may sign, with a non-empty PIN. |
| `BridgeProofs.TokenReachedExactly` | dsc_bridge/handlers.go:291-362 | The token is reached exactly by requests that may sign: a paired origin, the right site token if any, authentic if a secret is known, a present certificate, a hexadecimal hash, a PIN; with that hash and that non-empty PIN. |
| `BridgeProofs.GatesAgree` | dsc_bridge/server.go:134-144 | Requests let through may read their replies; signing and certificates are readable for paired sites only, and let through exactly for those with the right token or none. |
| `BridgeProofs.RunIsGated` | dsc_bridge/server.go:47-123 | Over every run of requests, PIN changes, plugging and restarts, every token call was made for a request that may sign, with a non-empty PIN. |
| `BridgeProofs.StoppedServesNothing` | dsc_bridge/main.go:70-73 | A bridge that did not come up serves nothing until a restart finds metadata it can read. |
| `BridgeProofs.TokenChangesShow` | dsc_bridge/pkcs11_handler.go:213-260 | A token that is pulled out is not called, and one whose PIN is changed takes the new PIN. |
| `BridgeProofs.RefusalsChangeNothing` | dsc_bridge/handlers.go:279-360 | A sign request that does not reach the token gets an error, or is a preflight, and changes neither keystore, cache nor token. |
| `BridgeReplies.BootstrapIsOpen` | dsc_bridge/server.go:47-120 | Preflights are answered on every path, a request to be paired reaches HandlePair, and status and MAC address are told, from any page, with any token and any sites paired. |
| `BridgeReplies.GateExactly` | dsc_bridge/server.go:62-91 | Anything else is turned away exactly when it is not from a paired site's page with the right token, if any; what is let in reaches its handler. |
| `BridgeReplies.RefusedExactly` | dsc_bridge/handlers.go:279-360 | A sign request that does not reach the token is told the first condition it fails: each of the seven answers is given exactly for its own reason, PIN_REQUIRED exactly when all else holds and there is no PIN. |
| `BridgeReplies.CallAnswered` | dsc_bridge/handlers.go:362-401 | Once the token is called: device faults are passed on, a token without retries says PIN_LOCKED, a wrong PIN always PIN_INCORRECT, an unknown key type an internal error, and after that the token's own answer decides. |
| `BridgeReplies.CacheAfterCall` | dsc_bridge/handlers.go:363-376 | The cache then keeps the PIN after a signature, drops it after PIN_INCORRECT and PIN_LOCKED, and is otherwise as it was. |
| `BridgeReplies.CachedWasGiven` | dsc_bridge/handlers.go:351-376 | Over every run, a PIN in the cache was presented for its certificate after the last restart. |
| `BridgeReplies.MappedExactly` | dsc_bridge/errors.go:95-122 | Which PKCS#11 return values, by number, give each error and status. |
| `BridgeReplies.PairAnsweredExactly` | dsc_bridge/handlers.go:135-195 | A request to be paired is told so exactly when it is a POST naming code and URL, the user agrees, the site answers with a token, and token and entry are stored; each other answer exactly for its own reason. |
| `BridgeReplies.PairedIsStored` | dsc_bridge/handlers.go:170-194 | When it is told so, entry and token are in the store, and a restart would find the entry. |
| `PinProofs.RequestEffect` | dsc_bridge/handlers.go:352-376 | One request touches at most one certificate's cache entry and one token, and a burnt retry always clears the entry. |
| `PinProofs.EventPotential` | dsc_bridge/handlers.go:365-376 | Each burnt retry of a cached PIN uses up the certificate's potential, which only a PIN change restores. |
| `PinProofs.CachedBurnsBounded` | dsc_bridge/handlers.go:352-376 | Over every run, retries burnt by a certificate's cached PIN plus one if it is now stale never exceed the PIN changes of its token, plus one if it was stale at the start. |
| `PinProofs.TokenBurnsBounded` | dsc_bridge/pincache.go:36-55 | Summed over a token's certificates, the same bound times their number. |
| `PinProofs.FreshBridgeBounded` | dsc_bridge/pincache.go:20-22 | A bridge just started pays only for the PIN changes it lives through. |
| `PinTight.BoundIsReached` | dsc_bridge/handlers.go:352-376 | For every n there is a run with n PIN changes and n retries burnt by the cache. |
| `Pairing.Site.GeneratePairingCode` | dsc_integration/api/agent.py:39-57 | Acts as the issuing step, and keeps the invariant of codes and registrations for a new code. |
| `Pairing.Site.GetOrCreateHmacSecret` | dsc_integration/dsc_integration/doctype/dsc_agent_settings/dsc_agent_settings.py:12-22 | Returns the stored secret, or stores and returns a new one. |
| `Pairing.Site.ValidatePairingCode` | dsc_integration/api/agent.py:60-102 | Acts as the redeeming step, in which the code is taken before an insert that may fail, and keeps the invariant of codes, registrations, secrets and tokens. |
| `Pairing.Site.VerifySiteToken` | dsc_integration/api/agent.py:105-119 | Answers with some matching active registration and marks it seen, or with none exactly if none matches. |
| `PairingProofs.CodesConserved` | dsc_integration/api/agent.py:40-102 | In every reachable state codes issued are the live, expired, redeemed and lost ones; there are as many registrations as redeemed codes, each with its code's user and within 600 seconds; one secret per epoch. |
| `PairingProofs.SpentStaysSpent` | dsc_integration/api/agent.py:61-66 | A redeemed, lost or expired code is never redeemed again. |
| `PairingProofs.ValidateExact` | dsc_integration/api/agent.py:60-102 | Validation succeeds exactly for a live code when the database takes both the registration and the secret; it spends the code either way, registers exactly when the insert is accepted, and hands out the stored secret and an active registration of this agent. |
| `PairingProofs.TokenVerifiesExactly` | dsc_integration/api/agent.py:105-119 | A granted token verifies to exactly its own registration while that is active, for its own agent or without naming one, and to nothing otherwise. |
| `PairingProofs.StrangersVerifyToNothing` | dsc_integration/api/agent.py:105-117 | A token that was never granted verifies to nothing. |
| `PairingProofs.SeenExactly` | dsc_integration/api/agent.py:114-118 | An answer moves the date of the registration it names to now, and nothing else. |
| `PairingProofs.RunSeesInTime` | dsc_integration/api/agent.py:77-118 | Over every run each registration was last seen between its making and now. |
| `PairingProofs.ActiveExactly` | dsc_integration/api/agent.py:109-110 | Over every run a registration is active exactly until it is revoked. |
| `PairingProofs.CodeCarriesItsUser` | dsc_integration/api/agent.py:41-77 | Whatever happens in between, a code redeemed makes a registration for the user it was issued to, within 600 seconds. |
| `PairingProofs.CodeWorksInTime` | dsc_integration/api/agent.py:47-66 | Whatever happens in between, a code that nobody redeemed can be redeemed exactly in the 600 seconds after its issue. |
| `PairingProofs.NewSecretIsGranted` | dsc_integration/dsc_integration/doctype/dsc_agent_settings/dsc_agent_settings.py:12-22 | Once an administrator has set a secret, every later redemption hands out that one until it is changed. |
| `PairingProofs.EpochsAreChanges` | dsc_integration/dsc_integration/doctype/dsc_agent_settings/dsc_agent_settings.py:12-22 | Over every run the epochs of the secret are the changes by the administrator. |
| `Direct.SigningDesk.InitiateDirectSign` | dsc_integration/api/direct_dsc.py:115-261 | Acts as the starting step, and keeps the desk's invariant for a new session. |
| `Direct.SigningDesk.FinalizeDirectSign` | dsc_integration/api/direct_dsc.py:264-346 | Acts as the finishing step for the cached document, and keeps the invariant: cached sessions unchanged, completions faithful, one per session. |
| `DirectProofs.AttachmentsAreSessions` | dsc_integration/api/direct_dsc.py:268-340 | Over every run each attached file belongs to one completion of a started, unexpired session, is that session's file with a container over the very attributes whose hash was handed out, names its document, and no session completes twice. |
| `DirectProofs.FinalizeKeeps` | dsc_integration/api/direct_dsc.py:283-289 | Finalize rebuilds the attributes that initiate hashed, through the digest's hexadecimal text. |
| `DirectProofs.StartedStays` | dsc_integration/api/direct_dsc.py:240-252 | A started session is never changed, and once gone from the cache never comes back. |
| `DirectProofs.TicketPipeFree` | dsc_integration/api/direct_dsc.py:227-233 | Every ticket's fields are free of separators. |
| `DirectProofs.InitiateExactly` | dsc_integration/api/direct_dsc.py:115-261 | A session is refused exactly without a secret or for a certificate that is not base64, and then leaves nothing; otherwise it is open for 600 seconds, and its ticket is what a bridge with the secret accepts within 60 seconds. |
| `DirectProofs.FinalizeRefusedExactly` | dsc_integration/api/direct_dsc.py:264-346 | Finalize succeeds exactly for an open session whose signature and certificate can be read and whose file can be finished; otherwise nothing changes. |
| `AllowListProofs.SearchIsFirstMatch` | dsc_integration/utils/workflow_approval.py:80-92 | The first certificate with the fingerprint decides: acceptance if it names nobody or the user, refusal of the user otherwise. |
| `AllowListProofs.SearchIsEntitlement` | dsc_integration/utils/workflow_approval.py:80-92 | Where all matches agree, the loop accepts exactly when some allowed certificate matches and names nobody or the user. |
| `AllowListProofs.DistinctPrintsSuffice` | dsc_integration/utils/workflow_approval.py:80-92 | Pairwise distinct fingerprints make that so for every fingerprint and user. |
| `AllowListProofs.OrderIndependentExactly` | dsc_integration/utils/workflow_approval.py:75-92 | The decision is the same under every reordering of the list exactly when the matching certificates agree about the user. |
| `AllowListProofs.ApprovalAndSigningAgreeExactly` | dsc_integration/api/direct_dsc.py:60-112 | On equal tables signing and approval give everyone but the Administrator the same verdict; for the Administrator they agree exactly when fingerprint and document type are given and nothing is demanded or the first demanded certificate with the fingerprint permits the Administrator. |
| `AllowListProofs.RequiredExactly` | dsc_integration/utils/workflow_approval.py:5-31 | For every user, not required for an approval means every fingerprint accepted exactly when a document type is given and, for the Administrator, nothing is demanded. |
| `AllowListProofs.LoginImpliesApproval` | dsc_integration/utils/login.py:176-197 | What login accepts, approval accepts on the same list of distinct fingerprints. |
| `AllowListProofs.LoginExactly` | dsc_integration/utils/login.py:176-197 | Login accepts exactly what approval does where the certificate also names the user and matches in the database's own comparison. |
| `AllowListProofs.LoginRequiredExactly` | dsc_integration/utils/login.py:102-121 | For every user, not required at login means every fingerprint accepted exactly when the user is named and the device neither demands a certificate of users it is not meant for nor, for the Administrator, has a list of them. |
| `AllowListProofs.OneReading` | dsc_integration/utils/workflow_approval.py:5-92 | Requirement, approval and signing are one declarative decision for everyone but the Administrator: demanded certificates, and whether one of them matches and names nobody or the user. |
| `AllowListProofs.FindUserExactly` | dsc_integration/utils/workflow_approval.py:17-22 | The row found is the first that names the user, and none is found exactly when no row does. |
| `AllowListProofs.SearchExactly` | dsc_integration/utils/workflow_approval.py:80-92 | On every list the loop accepts exactly when the first certificate with the fingerprint permits the user. |
| `AllowListProofs.ApprovalExactly` | dsc_integration/utils/workflow_approval.py:34-92 | For every user approval accepts exactly with fingerprint and document type given, and nothing demanded or the first demanded certificate with the fingerprint permitting the user. |
| `AllowListAnswers.ApprovalAnsweredExactly` | dsc_integration/utils/workflow_approval.py:34-92 | Each answer of an approval is given exactly for its own reason: no fingerprint, no document type, a certificate of other users, one that is not in the user's own row, one that is not on the list. |
| `AllowListAnswers.SigningAnsweredExactly` | dsc_integration/api/direct_dsc.py:60-112 | Signing gives everyone the answer of an approval on equal tables, but accepts the Administrator in any case. |
| `AllowListAnswers.LoginAnsweredExactly` | dsc_integration/utils/login.py:162-233 | Each answer at login likewise; of certificates with one fingerprint the first in the table decides, and a user is barred exactly when the device names users or roles, and neither this user nor one of their roles. |
| `AllowListAnswers.RequiredAtLoginExactly` | dsc_integration/utils/login.py:102-121 | A certificate is required at login exactly on a device that demands one from a list, of named users other than the Administrator who are not barred. |
| `AllowListAnswers.MatchesExactly` | dsc_integration/utils/workflow_approval.py:60-62 | A certificate matches exactly the texts of its fingerprint in any case, if it has one. |
| `AllowListAnswers.CaseIsIgnored` | dsc_integration/api/direct_dsc.py:68-68 | No decision depends on the case in which a fingerprint is presented. |
| `Counterexamples.ThreeZeroBytesMisread` | dsc_integration/api/direct_dsc.py:275-278 | A signature of three zero bytes does not arrive. |
| `Counterexamples.SerialsMisread` | dsc_bridge/aia.go:164-171 | Serial 0 has no INTEGER, and serial -1 reads back as 1. |
| `Counterexamples.LongBodyMisread` | dsc_bridge/aia.go:227-229 | A body of 65536 bytes cannot be read back. |
| `Counterexamples.SkewWraps` | dsc_bridge/handlers.go:411-417 | At opposite ends of 64-bit time the skew is one second. |
| `Counterexamples.EmptyHashMislabelled` | dsc_bridge/pkcs11_handler.go:296 | An empty hash is signed under a header announcing 32 bytes. |
| `Counterexamples.SecretOverwritten` | dsc_bridge/keystore.go:19-21 | Pairing with `hmac:s` replaces the secret of `s`. |
| `Counterexamples.OlderTokenResurfaces` | dsc_bridge/keystore.go:115-123 | A token written while the keychain is down is hidden by the older one once it is back. |
| `Counterexamples.RemovedTokenRemains` | dsc_bridge/keystore.go:198-205 | Removing a site while the keychain is down leaves its token there. |
| `Counterexamples.InterruptedRemoval` | dsc_bridge/keystore.go:192-210 | A removal can be stopped where an older token is back. |
| `Counterexamples.RestartMixesPairings` | dsc_bridge/keystore.go:78-91 | A failed save and a restart pair the new token with the old registration. |
| `Counterexamples.FailedInsertSpendsCode` | dsc_integration/api/agent.py:66-89 | A refused registration uses up its code. |
| `Counterexamples.OrderMatters` | dsc_integration/utils/workflow_approval.py:80-92 | With one fingerprint on two certificates the list's order decides. |
| `Counterexamples.AdministratorRefused` | dsc_integration/api/direct_dsc.py:61-66 | Without a fingerprint the Administrator may sign but not approve. |
| `Counterexamples.AdministratorNotRequired` | dsc_integration/utils/workflow_approval.py:5-8 | An approval requires no certificate of the Administrator and refuses one that is not on the list. |
| `Counterexamples.NothingRequiredNothingAccepted` | dsc_integration/utils/login.py:208-223 | A device can require nothing of a user and accept nothing from them. |
| `Counterexamples.FullDiskUnpairs` | dsc_bridge/keystore.go:236-244 | With the keychain down, pairing with a second site on a full disk takes the first one's token and HMAC secret. |
| `Counterexamples.PairedWithoutToken` | dsc_bridge/handlers.go:185-194 | A page is told that it is paired while the secret's write has just cut the token file short. |
| `Counterexamples.CutSaveStopsRestart` | dsc_bridge/keystore.go:212-218 | A save cut short leaves a bridge that does not start again. |
| `Counterexamples.RestartLeavesOrphan` | dsc_bridge/keystore.go:78-91 | After a first pairing whose save fails, a restart leaves a token without a site. |
| `Counterexamples.FailedSecretLeavesRegistration` | dsc_integration/api/agent.py:88-94 | A secret that cannot be stored after the commit leaves a registration nobody was told of. |
| `Counterexamples.RefusedDeletionResurfaces` | dsc_bridge/keystore.go:254-268 | A removal whose deletion from the file is refused brings an older token there back. |
| `Counterexamples.InterruptedRemovalOfSecret` | dsc_bridge/keystore.go:192-210 | A removal can be stopped where an older HMAC secret is back. |
| `Counterexamples.InterruptedSecretUnchecks` | dsc_bridge/keystore.go:236-244 | A crash while one site's secret is written, with the keychain down, leaves another site's requests unchecked. |
| `Counterexamples.TicketSignedTwice` | dsc_bridge/handlers.go:404-417 | One ticket presented at once and 60 seconds later is signed twice, over the same hash; one second more and it is refused. |
| `Counterexamples.AdministratorCheckedAtLogin` | dsc_integration/utils/login.py:102-121 | A device with a list requires no certificate of the Administrator and refuses one that is not on the list. |

## Left out

- TLS, installers, autostart, tray, trust stores, configuration, MAC address probing and device-map creation: operating-system calls.
- The browser's side, dialogs, stamps, watermarks, PDF rendering and logging: user interface and input/output; the user's consent to a pairing is a parameter.
- x509, asn1crypto, pyHanko and JSON: deterministic functions or exact round trips of the stored records; bodies that do not decode are a case of their own.
- Concurrency inside one operation: each request is one step, although `SetHMACSecret` takes no lock and the server's get and delete of a cache entry are two calls.
- The value of `issuerKeyHash`: the code hashes the whole SubjectPublicKeyInfo where RFC 6960 asks for the key alone, so both hashes are given inputs.
- Uniqueness of nonces: the bridge stores none, and `EndToEnd.ReplayExactly` says what follows.
- What a file cut short contains: it is taken not to parse, as no proper prefix of a JSON object does; and writes that were reported done are taken to survive.
- Tokens with several key pairs: `SignHash` uses the first key of the slot whatever the fingerprint, so one pair per slot is assumed.
- The loops over PKCS#11 libraries, slots and certificate objects: the outcome is a table from fingerprint to token.
- The certificate chain and OCSP response in a sign reply, sending time and agent version: not used by the server.
- CORS header values and the status, certificate and MAC address handlers' contents.
- `_resolve_user`, the public site URL and the display fields of a registration: parameters or dropped.
- `str.upper` beyond ASCII.
- `RemoveSite` in the two-machine runs: no handler calls it.
- A change of keychain availability or agent fingerprint within a two-machine run: both are fixed there.
- Aia.ByteSliceReader.ReadAll: stands for the caller's loop: the standard library's own reader is not part of this model.
- The algorithm a container names: the code writes RSA for EC keys too, and the container is an arbitrary function here.
- Stamp-settings layering, config merging and error message texts: branch-local and easy.
