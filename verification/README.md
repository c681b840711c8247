# Verification of tableaux-eink-go

tableaux-eink-go drives an e-paper panel through a kernel device, serves it over gRPC with TLS and
bearer tokens, and hosts that server in an Android app. This project models the four parts of it
that keep state and proves what they promise, or exactly where they do not keep the promise.

- **Pixels.** `Device` is the device node with its one shared mapping and one-shot frame handles.
  `DisplayService` holds `Fill` and `Refresh` as methods over that memory, each proved against an
  `Effect` that `RefreshProtocol` states without the loop. `Client` is the uploading side.
  `SharedFrame` lets any number of calls write the same memory at once, byte by byte.
- **Credentials.** `Credentials` is the store as a class over a disk, with generators, write
  failures and map iteration orders as inputs. `CredentialCrash` follows interrupted writes from
  one opening to the next, and `CredentialInterleaving` runs rotations, reissues and readers
  together. Every value carries the number of the generation it came from, which the code never
  looks at. `TokenAuth` and `RandomToken` are what the tokens meet.
- **Lifecycle.** `Server` is Start and Stop one at a time, `ServerInterleaving` any number of them
  overlapping, and `App` the handles the host application owns.
- **Codecs.** `Panel` (frame sizes in 64-bit arithmetic), `Bitmap`, `Waveform`, `Fingerprint`, `Text`.

Outcomes of system calls, of key generation and of the network are inputs. An interleaving is a
schedule, a sequence of steps of named calls, and the results hold for every legal schedule.

## Where the code and its promises differ

- A frame that the driver refuses stays mapped for good: no handler cancels it
  (`DisplayService.RefreshCommitsIff`). A rejected upload leaves its prefix in the shared memory.
- Two uploads at once can commit a frame that is neither (`SharedFrame.InterleavedUploadsTear`);
  the display's lock covers only the acquire. Any other call, even one about to be rejected, can
  tear a frame exactly when it means some byte of it differently (`SharedFrame.CanTearIff`).
- `--chunk-bytes` is not checked: zero sends empty chunks until a send fails, at the latest when the
  five minutes of the call are over; a negative value panics (`Client.UploadEndsIff`).
- A panel with one negative dimension can pass for a frame whose last byte no fill reaches
  (`Panel.PositiveSizeExactIff`, `DisplayService.FillShowsOnlyItsColour`).
- FillSolid says it paints every pixel; a grayscale frame has no room for the last of an odd number
  of pixels (`Panel.GrayFrameHoldsEveryPixelIff`).
- Opening the store trusts any six readable files. Torn or mixed sets are loaded as they are
  (`CredentialCrash.OneInterruptedInit`, `TwoInterruptedInitsMix`, `InterruptedRotation`).
- A reissue that overlaps another or a rotation can leave a client certificate on disk without its key
  (`CredentialInterleaving.ClientFilesMatchIff`, `CanMixIff`), and a reissue that overlaps another
  or a rotation can answer with a pair that does not match (`ReissueAnswerIff`).
- Every Start of the app opens the tls directory anew, under a lock of its own. One that meets a
  rotation of the store before it can load files of two generations
  (`CredentialInterleaving.OpeningPairedIff`, `CanLoadMixedIff`).
- Overlapping Stops can leave the gRPC server up for good, and so can a Stop that overlaps a Start:
  it leaves the new server up but not running, and the next Stop loses it. Nothing less does. As
  such a server keeps the fixed port, no Start succeeds any more
  (`ServerInterleaving.CanBreakIff`, `HiddenServerIsLost`, `LostForever`).
- The comments and the command line say that a Rotate or ReissueClientCert call restarts the server;
  nothing reads the request channel, so it only stops. The app's Start then reports success
  without starting anything (`App.RpcStopSticks`, `App.ComesBackIff`).
- Every rotation from the app that can open the device while a handle is held drops that handle
  (`App.DropIff`).

## Model

| member | source | states |
|---|---|---|
| Panel.FrameSizeIs | einklib/display.go:39-44 | The frame size is three bytes to a pixel of the virtual panel, as 64 bits hold it, or two pixels to a byte cut toward zero |
| Panel.FrameSizeExactIff | einklib/display.go:39-53 | For all int32 dimensions the frame size equals pixels times BytesPerPixelTimes2 over two exactly when the colour size fits 64 bits; grayscale never overflows |
| Panel.PositiveSizeExactIff | einklib/display.go:39-44 | A frame size that comes out positive is exact iff the number of pixels is not negative; colour sizes that overflow then always come out negative |
| Panel.GrayFrameHoldsEveryPixelIff | einklib/display.go:43 | A grayscale frame holds every pixel iff their number is even, and misses at most one |
| Bitmap.FillSolid | einklib/bitmap.go:6-25 | On a colour panel every whole group of three bytes becomes the red, green and blue of 0xAARRGGBB, on a grayscale one every byte 17 times the top four bits of the luma; all else keeps its value |
| Bitmap.FillPatternBytes | einklib/bitmap.go:6-25 | The bytes a fill means for a frame of any size are those, so that all results on fills are about these bytes |
| Bitmap.FillColor | einklib/bitmap.go:10-15 | Every whole three-byte pixel becomes (r, g, b); the last size mod 3 bytes and everything past the frame keep their value |
| Bitmap.FillGray | einklib/bitmap.go:18-24 | Every byte of the frame becomes 17 times the top four bits of the luma, nothing else changes |
| Bitmap.LumaIsRec709 | einklib/bitmap.go:17-18 | Luma is the identity on grays, monotone in each channel and within two of the Rec. 709 weights |
| Bitmap.ChannelsIgnoreAlpha | einklib/bitmap.go:7-9 | The channels of any 0xAARRGGBB are its three low bytes |
| Bitmap.FillIgnoresAlpha | einklib/bitmap.go:3-4 | Two colours that differ only in alpha fill alike |
| Bitmap.GrayPairNibbles | einklib/bitmap.go:19-20 | Both nibbles of a gray byte are the top four bits of the luma |
| Bitmap.FillCoversFrame | einklib/bitmap.go:12 | On a panel of exact size a fill writes the whole frame |
| Device.Display.AcquireFrame | einklib/display_linux.go:73-101 | Succeeds exactly when the handle is open, the buffer query and the mapping succeed and the length is positive; then one more mapping is live; each failure is the one of the first step that fails |
| Device.Display.Close | einklib/display_linux.go:122-131 | The descriptor is closed at most once and its close error returned; a handle already closed is left alone, without error |
| Device.Frame.Commit | einklib/display_linux.go:144-176 | Accepted iff the frame is not consumed, the handle open and the driver willing; the submission carries the frame's current bytes and the given window, or the whole virtual panel, and releases the mapping; a refused one changes nothing |
| Device.Frame.Cancel | einklib/display_linux.go:178-184 | Releases the mapping once, whatever was called before |
| Device.FrameIsOneShot | einklib/display_linux.go:133-184 | Over any sequence of calls only the first cancel or accepted commit has an effect: one release, at most one submission, none after it |
| RefreshProtocol.AcceptedIff | einkgrpc/displayservice.go:113-147 | A body is taken iff it is all data, closed by the client, as long as announced, and the total fits the frame; early overflow refusal never costs a good stream |
| RefreshProtocol.ChunkingIrrelevant | einkgrpc/displayservice.go:121-147 | Two partitions of the same bytes get the same verdict and, short of an overflow, leave the same bytes |
| RefreshProtocol.CuttingShowsIff | einkgrpc/displayservice.go:136-141 | Two ways of cutting the same bytes into chunks can leave different data in the frame iff the announced length is positive, fits the frame and is less than the bytes sent |
| RefreshProtocol.ReachUnique | einkgrpc/displayservice.go:121-142 | The number of messages taken in is the one longest run that fits |
| RefreshProtocol.JudgedAt | einkgrpc/displayservice.go:121-147 | Which verdict each way of leaving the receive loop amounts to |
| DisplayService.DisplayService.Fill | einkgrpc/displayservice.go:77-93 | Succeeds iff the frame can be acquired and the driver accepts, then with the full window, the wire mode less one (Auto if unknown) and the memory as filled; answer, memory, mappings and recorded error are those of FillEffect |
| DisplayService.DisplayService.Refresh | einkgrpc/displayservice.go:95-158 | What it submits has the client's bytes, the window of its header or the whole virtual panel, and the wire mode less one (Auto if unknown); for every stream and outcome, answer, memory, mappings and recorded error are those of RefreshEffect |
| DisplayService.RefreshAnswers | einkgrpc/displayservice.go:95-158 | How every failing stream is answered and what it leaves in the frame, given where its run of fitting chunks ends |
| DisplayService.FillAnswers | einkgrpc/displayservice.go:77-93 | How every Fill is answered and what it submits |
| DisplayService.DisplayService.Draw | einkgrpc/displayservice.go:113-158 | The part of Refresh that holds a frame releases it on every exit but a refused commit |
| DisplayService.DisplayService.Receive | einkgrpc/displayservice.go:121-147 | The receive loop returns the declarative verdict and leaves exactly the longest fitting run of data in the frame |
| DisplayService.RecordedIsLatest | einkgrpc/displayservice.go:215-219 | After any rendering calls the recorded error is that of the latest one whose client was told of a failed device call |
| DisplayService.RefreshCommitsIff | einkgrpc/displayservice.go:95-158 | Refresh submits iff the stream is well formed and the driver accepts, then with the client's bytes, window and mode; a mapping leaks iff a good frame was refused |
| DisplayService.FillShowsOnlyItsColour | einkgrpc/displayservice.go:77-93 | On every frame the device grants, a submitted fill shows its red, green and blue, or its gray level, and nothing of the frame before, iff the number of pixels is not negative |
| Client.Upload | tableaux-cli/commands.go:155-168 | Ends as the loop model says; what it sent is a prefix of the file, and of a finished upload all of it in chunks neither empty nor too long, as few as the size allows |
| Client.UploadEndsIff | tableaux-cli/commands.go:160-168 | For every size and every first failing send: finishes iff there is nothing to send, or the size is positive and all sends before the end of the file succeed; fails or panics exactly in the other cases it names |
| Client.UploadRoundTrip | tableaux-cli/commands.go:155-168 | For every partition of a file, the server submits a frame that starts with the file iff the file fits the frame |
| SharedFrame.EveryByteAccounted | einkgrpc/displayservice.go:77-158 | In every interleaving each byte of memory and of every submitted frame was there initially or was meant for that offset by some call; calls end as their own requests decide; exactly the committed ones submit, each once |
| SharedFrame.CopyIsIntended | einkgrpc/displayservice.go:140 | Each byte a live call copies is its declarative data at that offset |
| SharedFrame.MoveIsDue | einkgrpc/displayservice.go:113-147 | Every cancel or submit a call takes in the middle of an interleaving is the one its whole stream demands |
| SharedFrame.FrameByteIff | einklib/display_linux.go:73-101 | Whatever others do, at its submit a call holds its own byte at an offset iff nobody copied there, it copied last, or the last copy was that byte |
| SharedFrame.UndisturbedCommit | einklib/display_linux.go:73-101 | A call with nobody else copying between its acquire and its commit submits exactly the old memory overlaid with its own data |
| SharedFrame.CanTearIff | einklib/display_linux.go:73-101 | Over all schedules of two calls, some make the first submit another frame than its own iff it is good and the second means some byte of that frame differently |
| SharedFrame.LiveCallsCanMove | einkgrpc/displayservice.go:95-158 | No live call gets stuck, in any reachable state |
| SharedFrame.InterleavedUploadsTear | einklib/display_linux.go:88-89 | Two good uploads can commit a frame that is neither: a schedule that mixes their bytes |
| SharedFrame.IntendedIsSequential | einkgrpc/displayservice.go:77-158 | The interleaved calls mean what the sequential methods do |
| Credentials.CertManager.RegenerateLocked | einkgrpc/certmanager.go:92-119 | For every write order and failure: memory holds the new values, and the directory the files written before the failure; without one, each of the six files by name holds its value |
| Credentials.CertManager.ReadPem | einkgrpc/certmanager.go:57-71 | For every read order the four files are in memory iff all of them can be read |
| Credentials.CertManager.LoadOrInit | einkgrpc/certmanager.go:53-90 | Iff all six files can be read, each field is its file verbatim and each token its file less the white space around it; otherwise everything is regenerated; the read order never matters |
| Credentials.CertManager.Rotate | einkgrpc/certmanager.go:161-165 | As regeneration; a failed write leaves the new values in memory |
| Credentials.CertManager.ReissueClientCert | einkgrpc/certmanager.go:169-181 | Only the client pair changes, in memory and on disk, certificate first; each value goes to its own file |
| Credentials.StaysInSync | einkgrpc/certmanager.go:161-181 | Successful rotations and reissues keep memory and directory equal |
| Credentials.ReopenRoundTrip | einkgrpc/certmanager.go:39-90 | After opening any directory, complete or not, and any successful operations a new instance over it has the same six values |
| CredentialCrash.Happen | einkgrpc/certmanager.go:39-181 | The events of the crash results do to a directory what the methods of the store do |
| CredentialCrash.CompleteIff | einkgrpc/certmanager.go:53-90 | After any history of interrupted events the directory is trusted iff every file was there or was reached by some event |
| CredentialCrash.PairMatchesIff | einkgrpc/certmanager.go:53-119 | After any history of interrupted openings, rotations and reissues two files belong together iff the last event to touch either wrote both completely; the history alone decides |
| CredentialCrash.NextOpenPairedIff | einkgrpc/certmanager.go:53-119 | The next open serves two values that belong together iff the directory is incomplete, or the last event to touch either file wrote both |
| CredentialCrash.OneInterruptedInit | einkgrpc/certmanager.go:92-119 | One interrupted first initialisation is undone by the next open unless the failing write reached the very last file |
| CredentialCrash.InterruptedRotation | einkgrpc/certmanager.go:161-165 | After one interrupted rotation the next open trusts the files, and each pair matches iff both or neither of its files were reached |
| CredentialCrash.TwoInterruptedInitsMix | einkgrpc/certmanager.go:53-119 | Two interrupted initialisations can leave a complete, mixed directory even with atomic writes |
| CredentialInterleaving.PairsStayTogether | einkgrpc/certmanager.go:161-181 | In every interleaving the pairs in memory stay of one generation, and server files and tokens on disk equal memory whenever no rotation is in progress |
| CredentialInterleaving.ServerGeneration | einkgrpc/certmanager.go:92-103 | The server generation only grows, and changes iff a rotation began |
| CredentialInterleaving.SplitKeypairRead | einkgrpc/server.go:100 | Of Start's two reads the key is never older, and matches iff no rotation began in between |
| CredentialInterleaving.ReissueAnswerIff | einkgrpc/displayservice.go:182-189 | The pair a ReissueClientCert call answers with matches iff no pair was set between its two reads, and with the fingerprint is its own iff none was set since |
| CredentialInterleaving.SplitAcceptsIsCheck | einkgrpc/tokenauth.go:53-56 | The check of any header that bears a token comes down to the two reads in turn |
| CredentialInterleaving.SplitTokenCheck | einkgrpc/tokenauth.go:54 | Without a rotation the two token reads accept exactly the two current tokens |
| CredentialInterleaving.RotationFinishes | einkgrpc/certmanager.go:106-117 | A rotation in progress can always complete |
| CredentialInterleaving.AdminAcceptedIff | einkgrpc/tokenauth.go:54 | As tokens do not repeat, the split check accepts the admin token current at its start iff no rotation came in between |
| CredentialInterleaving.RotationTurnsAwayAdmin | einkgrpc/tokenauth.go:54 | From every quiet store there is a schedule that turns that token away |
| CredentialInterleaving.ClientFilesAgree | einkgrpc/certmanager.go:169-181 | At rest the client files equal memory, provided no two client-changing operations overlapped |
| CredentialInterleaving.ClientFileAgreesIff | einkgrpc/certmanager.go:169-181 | Overlapping or not, at rest a client file is the one in memory iff the thread that last wrote it is the one that last set the pair |
| CredentialInterleaving.ClientFilesMatchIff | einkgrpc/certmanager.go:169-181 | At rest the client certificate and key on disk belong together iff the same thread last wrote both |
| CredentialInterleaving.CanMixIff | einkgrpc/certmanager.go:161-181 | Some interleaving of at most k rotations and r reissues leaves a client certificate on disk without its key iff r >= 1 and k + r >= 2 |
| CredentialInterleaving.OverlappingReissuesMix | einkgrpc/certmanager.go:174-180 | Two overlapping reissues can leave the certificate of one with the key of the other |
| CredentialInterleaving.FileOrigin | einkgrpc/certmanager.go:92-181 | In every interleaving and at every moment each file is the work of the operation that the schedule shows to have written it last |
| CredentialInterleaving.OpeningPairedIff | einkgrpc/certmanager.go:53-87 | Two files that a second store reads while the first one works belong together iff the same operation had last written each when it was read |
| CredentialInterleaving.CanLoadMixedIff | einkgrpc/certmanager.go:57-71 | A second store can load a server certificate without its key iff a rotation goes on |
| CredentialInterleaving.QuietStart | einkgrpc/certmanager.go:39-51 | What a successful sequential run leaves is a start for the interleaving results |
| CredentialInterleaving.RotationAlone | einkgrpc/certmanager.go:92-119 | A rotation that nobody overlaps leaves each value in its own file, as the sequential method does |
| CredentialInterleaving.ReissueAlone | einkgrpc/certmanager.go:169-181 | And a reissue the client pair in memory and in its two files |
| RandomToken.TokenText | einkgrpc/certmanager.go:219-226 | Tokens have 32 visible characters, survive trimming, and are equal iff their random bytes are |
| RandomToken.GroupIsBase64url | einkgrpc/certmanager.go:225 | Three bytes become the four characters that the base64url table gives for their 24 bits |
| RandomToken.EncodeAt | einkgrpc/certmanager.go:225 | The groups stand in order |
| RandomToken.EncodeInjective | einkgrpc/certmanager.go:225 | The token encoding never maps two byte strings to one text |
| TokenAuth.ExtractedIsVisible | einkgrpc/tokenauth.go:48-53 | No header passes the prefix test with an empty token |
| TokenAuth.CheckIff | einkgrpc/tokenauth.go:39-57 | For all headers: a call is let in iff its first authorization header is the scheme and one of the two stored tokens, with white space only around them; every other call is told which of four reasons applies |
| TokenAuth.BearerRoundTrip | einkgrpc/tokenauth.go:39-65 | The command line's header is accepted iff its token, less white space around it, is one of the two stored ones |
| Server.Server.Start | einkgrpc/server.go:93-164 | Succeeds iff not running, the key pair loads, the client certificate does if mTLS is on, and the port can be listened on; each error exactly when its check is the first to fail; then running, on that port, with a new server and registrar; a failed Start changes nothing |
| Server.Server.Stop | einkgrpc/server.go:167-194 | Takes the server and the registrar and stops both once, if running |
| Server.Server.RotateRequest | einkgrpc/server.go:126-132 | Fills the channel and stops; nothing restarts |
| Server.EveryServerStoppedOnce | einkgrpc/server.go:93-194 | Over any sequential run running means having a server, and every server and registrar but the current ones was stopped exactly once |
| ServerInterleaving.EachServerTakenOnce | einkgrpc/server.go:93-194 | In every interleaving each server and registrar is taken by at most one Stop and is in exactly one place, current, in hand, ended once or lost; at most one server is up; running without a server means a Stop is about to clear it |
| ServerInterleaving.StartAlone | einkgrpc/server.go:93-164 | A Start that nobody overlaps does what the sequential one does |
| ServerInterleaving.StopAlone | einkgrpc/server.go:167-194 | And so does a Stop |
| ServerInterleaving.NoOverlapNoLoss | einkgrpc/server.go:93-194 | As long as calls do not overlap no server or registrar is lost, and running means having a server |
| ServerInterleaving.CanBreakIff | einkgrpc/server.go:93-194 | Some interleaving of at most n Starts and k Stops loses a server or registrar, or hides a server from Stop, iff k >= 2 when the server is running, and k >= 1 and n >= 1 when it is not |
| ServerInterleaving.OverlappingStopsLoseServer | einkgrpc/server.go:167-177 | Two overlapping Stops can leave the server unstopped |
| ServerInterleaving.StopOverStartHidesServer | einkgrpc/server.go:167-177 | A Stop over a Start can leave the new server up and current but not running |
| ServerInterleaving.HiddenServerIsLost | einkgrpc/server.go:136-194 | Whatever calls follow, overlapping or not, no Start makes a server and no Stop ends the hidden one; at rest it is lost iff there was a Stop |
| ServerInterleaving.LostForever | einkgrpc/server.go:136-194 | A server or registrar lost is never ended later, and after a lost server no Start ever succeeds |
| App.App.DoStart | einkapp/app_android.go:68-115 | Succeeds iff one is held already, or the build, the boot and the service do; each failure by its cause; the display is replaced whenever it can be opened; no server the app does not hold is left running |
| App.App.DoStop | einkapp/app_android.go:117-139 | Stops and forgets the server and closes the held handle |
| App.App.DoRotate | einkapp/app_android.go:223-240 | Stops the server and starts a new one, keeping the display variable; the old server is not left running |
| App.App.DoInit | einkapp/app_android.go:35-66 | Initialises once, and needs a directory |
| App.App.OnRotateRequest | einkgrpc/server.go:126-132 | A client's call stops the server it reached; the app changes only if it still holds that one |
| App.HandlesConserved | einkapp/app_android.go:68-145 | Over every run opened handles are the closed, the held and the dropped ones |
| App.NoHandleClosedTwice | einkapp/app_android.go:117-139 | No handle is closed twice or while held |
| App.PlainRunsCloseAll | einkapp/app_android.go:68-139 | Runs of successful Starts and Stops close every handle exactly once |
| App.DropIff | einkapp/app_android.go:78-85 | A step drops a handle iff it opens the device while one is held |
| App.RpcStopSticks | einkapp/app_android.go:74-76 | After an RPC stop every Start answers success, and any number of them changes nothing |
| App.ComesBackIff | einkapp/app_android.go:68-240 | Over every run after an RPC stop: it runs again iff a Start went through once a Stop or a failed rotation had cleared the server, or a rotation went through before that, and nothing halted it later |
| Waveform.EqFold | einklib/waveform.go:76-93 | True iff the strings are as long and differ at most in the case of ASCII letters |
| Waveform.ParseWaveformMode | einklib/waveform.go:67-74 | Finds a mode whose name folds to the string, or there is none |
| Waveform.NamesDiffer | einklib/waveform.go:28-64 | No two modes share a name in any case |
| Waveform.LayersAgree | tableaux-cli/commands.go:348-384 | Whatever the driver's parser accepts the command line accepts, and its number translates back to the same mode |
| Waveform.ParseWaveformIff | tableaux-cli/commands.go:348-384 | The command line takes a string for a mode iff, less the white space around it, it is the mode's name or its underscored spelling in any case |
| Waveform.WireNumbers | einkproto/display.proto:39-47 | The numbers sent are the protocol's, for the first seven modes |
| Waveform.LaterWireNumbers | einkproto/display.proto:48-52 | For the next five |
| Waveform.SpectraFullNumbers | einkproto/display.proto:53-56 | For the two full Spectra modes |
| Waveform.SpectraReducedNumbers | einkproto/display.proto:54-55 | For the two reduced ones |
| Waveform.WireNumberOfName | einkgrpc/displayservice.go:228-264 | The command line sends the driver's number plus one for every name |
| Fingerprint.FingerprintText | einkgrpc/certmanager.go:233-238 | The loop yields the colon-separated upper-case text |
| Fingerprint.FormatAt | einkgrpc/certmanager.go:233-238 | Character by character: two upper-case hexadecimal digits to a byte and a colon in between |
| Text.TrimSpaceIff | einkgrpc/tokenauth.go:48-53 | Trimming yields the one core with no white space at its ends and nothing but white space around it |
| Text.IsSpaceIff | einkgrpc/tokenauth.go:48 | White space is the 25 code points of Unicode's White_Space |
| Fingerprint.FormatInjective | einkgrpc/certmanager.go:228-239 | Different digests never print alike |
| Fingerprint.TruncateIsPrefix | einkgrpc/mdns_zeroconf.go:59-64 | The short form is the full text of the first 16 bytes, for digests of any length |

## Left out

- TLS, X.509, RSA, SHA-256 and randomness: fresh values are inputs; two generations are told apart only by their numbers.
- gRPC transport, deadlines and message limits: a stream is its messages and how it ends.
- Real ioctl and mmap: outcomes are inputs; a mapping longer than the device memory counts as refused.
- `ConnectURI` and `cmdConnect`: they rest on net/url, which is not part of this model.
- mDNS traffic, flag parsing, printing, GetInfo, Health, GetMetrics, clocks, SetOverlay, PaintRGB888 and PaintGrayscale: easy or outside the code.
- Device paths, logging, notifications and Android itself.
- Creating the tls directory: NewCertManager is the loading that follows it.
- Strings are sequences of code points: invalid UTF-8 is not covered, and the command line's lower-casing is ASCII only.
- Go's `int` is taken as 64 bits wide; sums of received chunk lengths, which fit memory, are not wrapped.
- Recorded errors of GetInfo and SetOverlay: only Fill and Refresh are followed.
- App.App.DoRotate: overlapping calls of the app's own functions are not interleaved.
- CredentialInterleaving.PairsStayTogether: no write fails there; failed writes are in the sequential class and the crash results.
- CredentialInterleaving.OpeningPairedIff: each write and each read of a file is one step; a read that meets a file just truncated is not covered.
- ServerInterleaving.LostForever: other programs on the port, and a port released between a Stop's end and its return; a port is held exactly while a server of this process is up.
- Server.Server.Stop: the five-second wait before a hard stop is one stop.
