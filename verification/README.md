# UniTrack: a verified model

UniTrack is an HTTP/1.1 server with a template engine and a store of login
sessions. This project models its five stateful cores in Dafny and proves what
they are for. `dafny verify dfyconfig.toml` checks all of it.

| files | what they model |
|---|---|
| `Chars` | character classes and the scanner for a greedy `class*` |
| `RequestParsing`, `HttpRequest` | the request parser: as functions, and as the object it fills |
| `RequestProofs`, `RequestStability`, `RequestPrinting`, `RequestVerdicts`, `HeaderValues` | the scanners against their regular expressions, later bytes, round trips |
| `QueryProofs` | query strings against form bodies |
| `SessionModel`, `Session`, `SessionProofs`, `StreamProofs`, `Refusals` | a connection: its state machine, its object, its runs, its byte stream, the statuses it sends |
| `Routing`, `HostHandlers`, `HostLaws`, `RedirectLoops` | the host tree, who answers, its soft redirects, and bytes that loop |
| `FormCoding` | percent and form decoding |
| `Templates`, `TemplatePage`, `TemplateProofs` | the template compiler and renderer |
| `ResponseFormat`, `HttpResponse` | responses and template responses |
| `LoginModel`, `LoginStore`, `LoginProofs`, `LoginStarts` | start, continue, restart and finish of login sessions |
| `FriendSample` | the sample of friends on a user's page |

Code that updates objects in place is modelled by classes and methods; each
method is proved against a function, and the properties are lemmas about the
functions. A regular expression is the explicit scanner it denotes; for the
start line, headers, host and cookie values, arguments, paths and template
commands, lemmas relate the scanner to the expression's groups and to the order
in which backtracking tries them.

What follows the code where documentation or habit say otherwise:

- A connection is kept alive only when a Connection header says so
  (`request.cpp:26-32`), not by default.
- Headers end at the first line of white space, which may be a bare LF
  (`request.cpp:232-240`), while the session waits for CRLFCRLF
  (`session.cpp:206-209`); the one-shot reference therefore asks for CRLFCRLF
  somewhere in the unread bytes too.
- The space around a template command may hold newlines: the expression says
  `[[:space:]]` although the comment above it excludes them (`page.cpp:89`).
- `continue_session` returns the user's id, but its ref when it restarts the
  session (`base.cpp:81-83`, `base.cpp:232`); `ContinueReturns` says exactly
  when, `ContinueReturnsRef` shows such a store.
- A session finished at time t may be finished again at the same t without an
  exception; only a later finish throws (`FinishAgainIff`, `FinishedTwice`).
- A soft redirect can loop forever. `TerminationIffLoopFree` gives the exact
  condition on the host configuration, `CanLoopIff` says for which virtual hosts
  a client's bytes reach the loop under every other one. Runs and one-shot parses are considered
  under every configuration: a run has no step from a request that is
  redirected forever (`Returns`), and the one-shot parse handles nothing from
  such a request on.

Inputs of the model: the bytes and completions of reads and writes, what a host
that answers comes to (`Config.handle`), the largest body a vector can be
resized to, the readings of the clock, the ids and indexes drawn, the variables
of a page.

## Model

| member | source | states |
|---|---|---|
| StreamProofs.ChunkingIndependence | src/modules/server/session.cpp:91-192 | Chunking independence: once the delivered bytes are used up, the requests handled and rejected, with their answers, are those of a one-shot parse of the whole stream that stops at the first error or request without keep-alive, for every sequence of read and write completions |
| StreamProofs.RunAgrees | src/modules/server/session.cpp:91-233 | The invariant behind it, in every reachable state and for every continuation `more`: handled so far, then what is still to come, is the one-shot result for all bytes |
| StreamProofs.HandledIsPrefix | src/modules/server/session.cpp:91-192 | At any moment the requests handled so far are a prefix of the one-shot result, whatever arrives later |
| StreamProofs.SameBytesSameRequests | src/modules/server/session.cpp:91-233 | Two runs that deliver the same bytes in different chunks handle the same requests and push the same responses |
| StreamProofs.PipelineOneShot | src/modules/server/protocol/http/request.cpp:122-168 | A pipeline of printed well-formed requests, all but the last answered and keep-alive, is parsed into exactly those requests; the last may be refused |
| StreamProofs.PipelinedRoundTrip | src/modules/server/session.cpp:91-233 | Pipelined round trip: such a pipeline delivered in any chunks is handled as exactly that list of requests and verdicts, in order, with nothing of one request in the next |
| SessionProofs.RunKeepsInv | src/modules/server/session.cpp:91-271 | The session invariant holds in every state of every run, whatever reads and writes complete or fail |
| SessionProofs.ResponsesInOrder | src/modules/server/session.cpp:239-271 | In every run: one response pushed per request, at most one write, of the queue's front; writes start in the order of the requests (section 6.3.2 of RFC 7230) |
| SessionProofs.CleanQuiescence | src/modules/server/session.cpp:239-271 | Without a write error a nonempty queue is being sent; when nothing is pending the queue is empty and every request's response was written |
| SessionProofs.OneReadAtATime | src/modules/server/session.cpp:203-233 | At most one read pending, none after an error or a request without keep-alive, and no request handled behind that one |
| SessionProofs.OneTopUp | src/modules/server/session.cpp:96-121 | When the top-up read of a body completes the request is handled: a body never needs a second one |
| SessionProofs.ServeKeepsRequest | src/modules/server/session.cpp:125-159 | The reprocess loop changes nothing of the request but its path |
| Refusals.ServeLaw | src/modules/server/session.cpp:125-159 | One turn of the loop with the statuses it sends: 400 for another port or a path that is no sections, 404 for a host not served there or an unknown section; else the host that the path leads to answers or sends back |
| Refusals.RefusedOnTheWire | src/modules/server/session.cpp:161-191 | From delivered bytes to the one response sent, in any chunks: 505 if and only if the first line is HTTP in any case with another version than 1.1; 500 if and only if a POST announces a body that cannot be held; 404 if and only if the host or port is not served; 400 for a line that does not match, another protocol, a bad header or target, a body without POST and a wrong port |
| Refusals.FirstRefusal | src/modules/server/session.cpp:161-191 | The same for the first request behind any number of handled ones: each status before a host is asked, exactly for these reasons |
| Refusals.HostOnTheWire | src/modules/server/session.cpp:146-156 | The first response to bytes that lead to a host which does not send them back is what that host makes of the parsed request, with nothing but the path changed |
| Refusals.ReportedIff | src/modules/server/protocol/http/request.cpp:122-152 | Which exception the parser ends with, or none, for any bytes: exactly one of eight conditions on the line, the headers and the announced length holds, and it is the one reported |
| ServerSession.Session.constructor | src/modules/server/session.cpp:22-45 | A new session, whatever the configuration, has one read pending and nothing else |
| ServerSession.Session.ProcessRequest | src/modules/server/session.cpp:91-192 | Unless the request is redirected forever, the new state of all fields, operations and histories is that of the state machine |
| ServerSession.Session.ReadRequest | src/modules/server/session.cpp:96-121 | Parses a new request or goes on with a body; an error is answered, a missing body part is read, else the request is ready |
| ServerSession.Session.CallHost | src/modules/server/session.cpp:137-150 | One pass of the loop, under any host tree: wrong port, unknown host, exception, response or soft redirect, and the path it leaves |
| SessionModel.AgainHalts | src/modules/server/session.cpp:144-150 | In a loop that ends, a soft redirect leads to a request with a strictly shorter path for which the loop ends too |
| ServerSession.Session.Reprocess | src/modules/server/session.cpp:125-159 | For every request whose redirects end the loop ends, and what it pushes and starts is the reference reprocess function |
| ServerSession.Session.SendResponse | src/modules/server/session.cpp:71-75 | Queues a response and starts writing if nothing is being written |
| ServerSession.Session.HandleError | src/modules/server/session.cpp:60-83 | Queues exactly one phony response for the request |
| ServerSession.Session.AddResponseHandler | src/modules/server/session.cpp:240-251 | Starts a write of the front only when none is outstanding and the queue is not empty |
| ServerSession.Session.RequestHandler | src/modules/server/session.cpp:215-233 | Steps the state machine by one completed or failed read |
| ServerSession.Session.ResponseHandler | src/modules/server/session.cpp:256-271 | Pops the response sent; starts the next write only without an error |
| RequestStability.ParseStable | src/modules/server/protocol/http/request.cpp:122-152 | Parsing a buffer that holds CRLFCRLF stops inside it: later bytes change nothing but the rest, or complete the body |
| RequestStability.HeadersStable | src/modules/server/protocol/http/request.cpp:134-135 | The header loop ends at the first line of white space, an error or an empty line inside the buffer, never behind it |
| RequestStability.ParseRequired | src/modules/server/protocol/http/request.cpp:149-151 | When more bytes are required the buffer is used up and the number is exactly what the body lacks |
| RequestStability.ParseShrinks | src/modules/server/protocol/http/request.cpp:129-135 | Every request takes at least one byte off the buffer |
| RequestProofs.StartLineComplete | src/modules/server/protocol/http/request.cpp:175-195 | Any text the start-line expression matches with given groups is parsed into those groups |
| RequestProofs.StartLineSound | src/modules/server/protocol/http/request.cpp:175-195 | What the scanner reports is a match of the start-line expression |
| RequestVerdicts.StartLineVerdict | src/modules/server/protocol/http/request.cpp:198-218 | What a start line comes to, by its groups: HTTP in any case, version 1.1 and nothing else, the four methods in any case |
| RequestVerdicts.HeadVerdict | src/modules/server/protocol/http/request.cpp:134-135 | For any bytes: the head is an error if and only if a line before its end is no header or a bad one; else it does what its headers do, one after the other |
| RequestVerdicts.NumberIff | src/modules/server/protocol/http/request.cpp:22 | What lexical_cast takes: digits below the limit with or without a sign, a minus counting down from the limit |
| RequestVerdicts.BadHeaderIff | src/modules/server/protocol/http/request.cpp:251-256 | A header throws if and only if it is a Content-Length that is no number or a Host without a host or with a bad port |
| RequestVerdicts.RequestVerdict | src/modules/server/protocol/http/request.cpp:122-152 | Every way the parser refuses a request with a start line, in the order in which it looks, a body on a method other than POST included |
| RequestProofs.HeaderSound | src/modules/server/protocol/http/request.cpp:225-243 | What the scanner reports is a match of the header expression |
| RequestProofs.HeaderPreferred | src/modules/server/protocol/http/request.cpp:225-243 | It finds a match if there is one, and the one that backtracking reaches first: the longest key that leaves a value |
| RequestProofs.HeaderVerdict | src/modules/server/protocol/http/request.cpp:239-243 | A line is a header, an end of the headers (white space only) or an error, exactly by these conditions |
| RequestProofs.PrintedHeaderParses | src/modules/server/protocol/http/request.cpp:222-262 | A line `name: value` CR parses back to the same name and value if and only if the name is nonempty and free of white space, the value nonempty, free of CR and LF and without leading white space (a value of one character may be a blank) |
| RequestPrinting.PrintedRequestParses | src/modules/server/protocol/http/request.cpp:122-152 | Parsing a printed request, whatever follows it, rebuilds it and leaves what follows (sections 3.1.1, 3.2 and 3.3 of RFC 7230) |
| RequestPrinting.HeadersRead | src/modules/server/protocol/http/request.cpp:134-135 | Printed headers read back one after the other, up to the blank line, with what follows untouched |
| RequestPrinting.RebuiltFields | src/modules/server/protocol/http/request.cpp:122-262 | The rebuilt request has the method, URI, headers as multisets, body and query items that were printed |
| HttpRequest.HttpRequest.Reset | src/modules/server/protocol/http/request.cpp:92-117 | Every field is as in a new request |
| HttpRequest.HttpRequest.ProcessStream | src/modules/server/protocol/http/request.cpp:122-152 | Fields, rest of the stream, exception and result are those of the specification, whatever the request held before |
| HttpRequest.HttpRequest.ProcessStreamAgain | src/modules/server/protocol/http/request.cpp:158-168 | Copies what is buffered into the body at the right place and returns what is still missing |
| HttpRequest.HttpRequest.ProcessHeaders | src/modules/server/protocol/http/request.cpp:134-135 | The header loop computes the specification's result |
| HttpRequest.HttpRequest.ProcessStartString | src/modules/server/protocol/http/request.cpp:173-219 | Method, version and URI, or the error and the fields filled before it |
| HttpRequest.HttpRequest.ProcessHeaderString | src/modules/server/protocol/http/request.cpp:222-262 | Known headers take effect and are counted as parsed, others as unparsed; a blank line ends the loop |
| HttpRequest.HttpRequest.ProcessHeaderHost | src/modules/server/protocol/http/request.cpp:35-53 | Host and optional port, or an error |
| HttpRequest.HttpRequest.ProcessHeaderCookie | src/modules/server/protocol/http/request.cpp:56-67 | Adds all name=value pairs the expression finds; the first of a name stays |
| HttpRequest.HttpRequest.ProcessUri | src/modules/server/protocol/http/request.cpp:266-310 | Path, key/value and key-only items, or an error |
| HttpRequest.FindText | src/modules/server/protocol/http/request.cpp:26-32 | Finds the text exactly when it occurs |
| HeaderValues.CookieSound | src/modules/server/protocol/http/request.cpp:59-60 | What the cookie scanner reports is a match of the cookie expression |
| HeaderValues.CookiePreferred | src/modules/server/protocol/http/request.cpp:59-66 | Where the cookie expression can match, the scanner finds the only possible name and the longest value |
| HeaderValues.CookieIsFirst | src/modules/server/protocol/http/request.cpp:65-66 | The iterator goes to the first place where it matches |
| HeaderValues.CookiesRoundTrip | src/modules/server/protocol/http/request.cpp:56-67 | A Cookie header written as `name=value; name=value` yields exactly those pairs in order |
| HeaderValues.FirstCookieCounts | src/modules/server/protocol/http/request.cpp:65-66 | Of cookies with one name the first one is kept, wherever it stands in the list |
| HeaderValues.OnlyCookiesSent | src/modules/server/protocol/http/request.cpp:65-66 | Exactly the names sent are present |
| HeaderValues.RebuiltCookies | src/modules/server/protocol/http/request.cpp:248-258 | A printed request comes back with exactly the names its Cookie headers yield, each with the value of its first pair in header order |
| HeaderValues.CookieHeaderParses | src/modules/server/protocol/http/request.cpp:222-262 | Bytes with a header `Cookie: name=value; ...` parse to a request with the first value of each name |
| HeaderValues.RebuiltEffects | src/modules/server/protocol/http/request.cpp:19-53 | Keep-alive, host and port of a printed request, by its headers; port 80 and no keep-alive without them |
| HeaderValues.HostMatches | src/modules/server/protocol/http/request.cpp:38-52 | What any value that the Host expression matches does: leading zeros are fine, a port above 65535 is an error, a value without a port keeps the one that was there |
| HeaderValues.HostFails | src/modules/server/protocol/http/request.cpp:44-45 | Any other value (no host, an empty port, one that is not all digits) is an error that changes nothing |
| HeaderValues.HostRoundTrip | src/modules/server/protocol/http/request.cpp:35-53 | A host with or without a port comes back; a port above 65535 is an error |
| HeaderValues.LastHeaderCounts | src/modules/server/protocol/http/request.cpp:19-53 | Keep-alive, content length and host are those of the last header of that name; without a Connection header a fresh request is not keep-alive |
| HeaderValues.LastPortCounts | src/modules/server/protocol/http/request.cpp:51-52 | The port is that of the last Host header that has one; a later one without a port leaves it alone |
| QueryProofs.UriMatchIsPreferred | src/modules/server/protocol/http/request.cpp:274-282 | The group-level scan of process_uri finds a match if there is one, and the one that backtracking reaches first |
| QueryProofs.SameItems | src/modules/server/protocol/http/request.cpp:299-308 | Told apart by group [3], the matches of process_uri are the items of decode_uri_args, in order |
| QueryProofs.QueryAgreesWithForm | src/modules/server/protocol/http/request.cpp:274-309 | Query/form agreement: for the callbacks decode_uri_args makes on the same text, as many pairs and keys are called as process_uri collects, one for each nonempty run, and each decoded pair or key is called exactly as often as collected ones decode to it |
| QueryProofs.QueryItemsAreCalled | src/modules/server/protocol/http/utils.hpp:28-35 | As multisets, what process_uri collects is what decode_uri_args goes through before decoding |
| QueryProofs.ItemsAreTheRuns | src/modules/server/protocol/http/utils.hpp:28-35 | Each nonempty run between separators yields exactly one item, in order |
| FormCoding.DecodeStr | src/modules/server/protocol/http/utils.cpp:13-61 | The two-pass loop with its old position equals the one-pass recursive decoder on every string |
| FormCoding.AddData | src/modules/server/protocol/http/utils.cpp:34-42 | Appends the block between the positions and moves the old position to its end |
| FormCoding.DecodedLength | src/modules/server/protocol/http/utils.cpp:45-57 | Decoding shortens a string by exactly two for each escape |
| FormCoding.DecodeInvertsEncode | src/modules/server/protocol/http/utils.cpp:13-61 | Decoding inverts any percent-encoder, whichever characters it escapes and whatever case its digits have (section 2.1 of RFC 3986) |
| FormCoding.DecodePlain | src/modules/server/protocol/http/utils.cpp:23-57 | Where nothing is an escape only `+` changes, stray `%` signs included |
| FormCoding.ArgMatchIsPreferred | src/modules/server/protocol/http/utils.hpp:15-23 | The scanner takes the match backtracking reaches first: the key runs to the last `=` of the segment |
| FormCoding.ArgNoMatch | src/modules/server/protocol/http/utils.hpp:15-23 | When the scanner finds nothing the expression cannot match |
| FormCoding.ItemsAreThePieces | src/modules/server/protocol/http/utils.hpp:28-35 | Iterating the expression yields one item for each nonempty piece between separators, in order |
| FormCoding.DecodeUriArgs | src/modules/server/protocol/http/utils.hpp:8-39 | The callbacks made, in order, are the decoded items of the string |
| FormCoding.FormRoundTrip | src/modules/server/protocol/http/utils.hpp:15-35 | Form round trip: kv_action is called with exactly the submitted pairs in order, k_action never (section 17.13.4.1 of HTML 4.01) |
| Routing.SplitIsTheMatch | src/modules/host/path_utils.cpp:14-33 | The result is the groups of the expression, in the only way it can match |
| Routing.DispatchShortens | src/modules/host/modules/hierarchy.cpp:78-110 | No hierarchy, default or user step lets the path grow or touches anything else; a path of the same length is the same path; it is a rewriting of the original |
| Routing.UserShortens | src/modules/host/modules/logic/user.cpp:60-81 | Taking the user and section off the path gives a suffix of it, perhaps behind a new `/` |
| Routing.StuckRoute | src/modules/host/modules/logic/user.cpp:95-96 | A soft redirect that leaves the request unchanged comes from the host that `/` or an unknown section reaches |
| Routing.RedirectShortens | src/modules/server/session.cpp:125-150 | In a loop-free tree every soft redirect makes the path strictly shorter |
| Routing.LoopFreeTerminates | src/modules/server/session.cpp:125-159 | In a loop-free tree the reprocess loop ends after at most one pass per character of the path |
| Routing.TerminationIffLoopFree | src/modules/server/session.cpp:125-159 | The loop ends for every request if and only if neither the host of `/` nor the default host can return nullptr |
| Routing.TerminatesWithin | src/modules/server/session.cpp:125-159 | Whether the loop ends for a request shows within one pass per character of its path |
| Routing.TerminatingStep | src/modules/server/session.cpp:125-150 | In a loop that ends every soft redirect makes the path strictly shorter, whatever the tree |
| Routing.DivergingPath | src/modules/server/session.cpp:125-159 | Any other tree has a path, `/` or an unregistered section, that sends every request for it without POST and `json` into the loop |
| RedirectLoops.LoopingBytes | src/modules/server/session.cpp:125-159 | A client can send it, for every virtual host a request can come to: `GET <path> HTTP/1.1` with the Host headers for the name and port, none for the empty name, parses to a request that the host redirects forever, by either route |
| RedirectLoops.CanLoopIff | src/modules/server/session.cpp:125-159 | For any name: some bytes make process_request run forever in that virtual host if and only if it answers on the server's port, a request can come to that name and port, and its tree is not loop-free |
| RedirectLoops.ParsedAddress | src/modules/server/protocol/http/request.cpp:35-53 | The names and ports that requests can come to: without a Host header the empty name on port 80, else a name free of `:` and line breaks that starts with white space only when it is a single blank |
| RedirectLoops.PlainGetParses | src/modules/server/protocol/http/request.cpp:122-152 | What these bytes parse to: the method, path, host and port, and no arguments |
| HostLaws.DispatchLaw | src/modules/host/modules/hierarchy.cpp:78-110 | For any tree, in terms of the groups of the section expression: a request is sent back or answered by the very host its sections lead to, by that host's own condition, and leaves the path that host leaves; 400 if and only if they lead to a hierarchy whose path does not split, 404 if and only if to one without the section and without a default |
| HostLaws.LeafLaw | src/modules/host/modules/logic/login.cpp:44-45 | Login and logout send back everything but POST, users everything without `json`, user pages everything without `json` whose path splits; each answers anything else |
| HostLaws.UserTakesIff | src/modules/host/modules/logic/user.cpp:60-81 | What the user host takes off a path: one section, and if it is hexadecimal one more |
| HostLaws.PostJsonIsAnswered | src/modules/host/modules/logic/users.cpp:44-47 | A POST with `json` is never sent back |
| Routing.PathsAreRewritings | src/modules/server/session.cpp:125-159 | At every pass the path is the original, a suffix of it, or `/` and a suffix |
| HostHandlers.RespondHierarchy | src/modules/host/modules/hierarchy.cpp:78-110 | Dispatches by the first section, overwriting the path in place, and otherwise to the default host with the path untouched |
| HostHandlers.RespondUser | src/modules/host/modules/logic/user.cpp:52-96 | Takes a hexadecimal user and one section off the path in place, then answers or redirects softly |
| HostHandlers.Respond | src/modules/host/modules/logic/users.cpp:38-56 | Each kind of host answers, throws or redirects softly, changing only the path, as the routing function says |
| TemplateProofs.CommandIsParse | src/modules/templatizer/page.cpp:94-105 | What the scanner reports is a match of the command expression |
| TemplateProofs.CommandGroups | src/modules/templatizer/page.cpp:129-137 | It reports the groups of that match; its characters and the rest are the text |
| TemplateProofs.CommandIsPreferred | src/modules/templatizer/page.cpp:94-105 | It finds a match if there is one, and the one backtracking reaches first |
| TemplateProofs.WrittenCommand | src/modules/templatizer/page.cpp:98-101 | The argument loses its leading spaces, keeps its trailing ones and ends at the first closing bracket of either kind |
| TemplateProofs.CompileThenRun | src/modules/templatizer/page.cpp:106-159 | Template refinement: for every text that loads, the generated buffers put together are a recursive left-to-right substitution on the text, with a table of its own for what each command prints, and generating throws exactly when that fails |
| TemplateProofs.FullFormShows | src/modules/templatizer/modules/tolower_chunk.cpp:36-44 | From the text `${command arg}` to the bytes shown: var the value, tolower and toupper its letters moved by 32, time and date the clock's text, debug the length and the value; nothing is shown when the variable is missing |
| TemplateProofs.ShortFormShows | src/modules/templatizer/modules/var_chunk.cpp:32-44 | `$name` shows the variable |
| TemplateProofs.ChunkPrints | src/modules/templatizer/modules/toupper_chunk.cpp:36-44 | The chunk made for a command generates what the table says |
| TemplateProofs.LoadsIffKnown | src/modules/templatizer/page.cpp:139-148 | A page loads exactly when every command in its text has a module |
| TemplateProofs.PiecesAreTheText | src/modules/templatizer/page.cpp:113-127 | The raw pieces and the matched commands, put together, are the file |
| TemplateProofs.ChunksMatchPieces | src/modules/templatizer/page.cpp:113-159 | Raw chunks and command chunks alternate and every raw chunk is the piece of the file between two commands |
| TemplateProofs.GeneratesIffDefined | src/modules/templatizer/page.cpp:195-207 | Generating throws exactly when a symbol that some chunk looks up is missing |
| TemplateProofs.SymbolsSuffice | src/modules/templatizer/page.cpp:212-226 | A model that defines every exported symbol never makes generate throw |
| TemplateProofs.SymbolsDetermine | src/modules/templatizer/page.cpp:212-226 | For the same clock, models that agree on the exported symbols give the same buffers |
| TemplateProofs.SymbolsAreArguments | src/modules/templatizer/page.cpp:212-226 | The symbols a page exports are the arguments of all its commands |
| TemplatePage.Page.Load | src/modules/templatizer/page.cpp:70-179 | Loads the compiled chunks, or reports the error and keeps the old chunks |
| TemplatePage.Page.ParseText | src/modules/templatizer/page.cpp:106-159 | The position loop computes the compiled chunks, so its position test never skips a raw chunk |
| TemplatePage.Page.Generate | src/modules/templatizer/page.cpp:195-207 | Appends the chunks' buffers, those before the failing one included, and returns their total length |
| TemplatePage.Page.ExportSymbols | src/modules/templatizer/page.cpp:222-226 | Adds exactly the chunks' symbols to the set |
| TemplatePage.GenerateChunk | src/modules/templatizer/chunk.cpp:15-20 | Raw, time and date chunks never throw; any other appends nothing when its variable is missing |
| TemplatePage.GenerateValue | src/modules/templatizer/modules/debug_chunk.cpp:32-47 | The buffers of a variable, lower-case, upper-case or debug chunk, and the sum of their sizes |
| TemplatePage.Transform | src/modules/templatizer/modules/tolower_chunk.cpp:36-44 | The in-place transformation of a copy maps every character |
| ResponseFormat.WireFormat | src/modules/server/protocol/http/response.hpp:4-71 | Wire format: after any calls of add_header, add_body and reset_cookie in any order the buffers are the status line, the header lines in call order, one blank line and the bodies in call order (section 3 of RFC 7230) |
| ResponseFormat.StatusLineSplits | src/modules/server/protocol/http/response.hpp:11-14 | A status line splits back into protocol and version, code and description (section 3.1.2 of RFC 7230) |
| ResponseFormat.AddHeaderHolds | src/modules/server/protocol/http/response.hpp:21-35 | Adding a header puts its line last and keeps the final blank line and the bodies |
| ResponseFormat.HeadersParseBack | src/modules/server/protocol/http/response.hpp:21-35 | Printed headers read back as the same multisets, with the body untouched behind them |
| ResponseFormat.TemplateResponse | src/modules/host/modules/file_handlers/template_pages_only.cpp:29-49 | Content-Length is the number of body bytes; HEAD has the header text of GET and only the header buffer (section 4.3.2 of RFC 7231) |
| ResponseFormat.TemplateOnTheWire | src/modules/host/modules/file_handlers/template_pages_only.cpp:17-50 | A template's text, substituted, is the body on the wire, behind headers that give its length |
| ResponseFormat.LengthParsesBack | src/modules/server/protocol/http/request.cpp:19-23 | A printed length reads back as the same number when it fits, else it is an error |
| HttpResponse.Response.constructor | src/modules/server/protocol/http/response.hpp:4-17 | A new response holds the status line and the blank line in its one buffer |
| HttpResponse.Response.AddHeader | src/modules/server/protocol/http/response.hpp:21-35 | The header text and buffer 0 grow by the line; the other buffers stay |
| HttpResponse.Response.AddBody | src/modules/server/protocol/http/response.hpp:38-43 | One buffer more at the end, headers untouched |
| HttpResponse.Response.ResetCookie | src/modules/server/protocol/http/response.hpp:46-53 | Adds the Set-Cookie header that expires the cookie |
| HttpResponse.NewTemplateResponse | src/modules/host/modules/file_handlers/template_pages_only.cpp:17-50 | The constructor's sequence of in-place updates gives the specified response, or throws when generating does |
| LoginProofs.StepKeepsInv | src/modules/logic/base.cpp:51-254 | Every whole start, continue or finish keeps the invariant of the two collections |
| LoginProofs.IndexAgreement | src/modules/logic/base.cpp:124-130 | Per-user index agreement: after any operations a user's sessions array holds exactly the OIDs of that user's stored sessions never successfully finished, each once; no session outlives start plus lifetime |
| LoginProofs.RunIsLater | src/modules/logic/base.cpp:103-110 | Over any run no session is lost or reassigned and valid_until never grows |
| LoginProofs.DeathIsPermanent | src/modules/logic/base.cpp:51-131 | Session death is permanent: after a finish at time t every continue throws, every finish later than t throws, and no operation issues the id again |
| LoginProofs.IssuedIsNew | src/modules/logic/base.cpp:159-175 | No operation issues an id that any stored session has or had |
| LoginStarts.EverySessionHasALogin | src/modules/logic/base.cpp:138-146 | Over any run: every stored session belongs to a user for whom a start with that user's email and password was made |
| LoginStarts.StartVerdict | src/modules/logic/base.cpp:21-44 | user_not_found if and only if no user has the email, password_not_match if and only if the stored password differs, and then nothing is stored; otherwise it returns the ref of the owner of the email or cannot start |
| LoginStarts.CantStartIff | src/modules/logic/base.cpp:159-176 | A start fails if and only if all ids it may try are in use |
| LoginStarts.PickedIsFirstUsable | src/modules/logic/base.cpp:159-173 | The retry loop takes the first usable id among those it may try |
| LoginStarts.StartStores | src/modules/logic/base.cpp:179-232 | What a start stores and returns, field by field, and that nothing else changes |
| LoginStarts.FinishStores | src/modules/logic/base.cpp:94-131 | When a finish throws, and what it stores |
| LoginStarts.ContinueVisits | src/modules/logic/base.cpp:72-81 | A continue without a restart notes the visit and nothing else |
| LoginStarts.StepKeepsAccounts | src/modules/logic/base.cpp:51-254 | No operation changes an email, a password or a ref |
| LoginProofs.ContinuedIffAlive | src/modules/logic/base.cpp:69-88 | continue_session knows a session if and only if it was never finished and its lifetime is not over (and, when a restart is due, not over at the second reading); before that it returns the user id and no cookie |
| LoginProofs.FinishedTwice | src/modules/logic/base.cpp:99-121 | A store and a clock on which a session is finished twice without an exception |
| LoginProofs.ContinueReturns | src/modules/logic/base.cpp:69-88 | When continue_session returns: the user id and no cookie if and only if the restart is not due yet, else the user ref and a new cookie |
| LoginProofs.ContinueReturnsRef | src/modules/logic/base.cpp:81-84 | A store on which it returns the ref and not the id |
| LoginProofs.FinishAgainIff | src/modules/logic/base.cpp:99-121 | A session finished at time t: after any further operations, finishing it again throws if and only if the clock has gone past t |
| LoginProofs.ContinueConserves | src/modules/logic/base.cpp:82-84 | Restart conservation: a continue that restarts the session swaps it for one new session of the same user, so no user's count changes; one that throws adds none; without a restart nothing changes |
| LoginProofs.ContinueStartsAnew | src/modules/logic/base.cpp:239-254 | A restarting continue leaves a session with a fresh id, valid from its start to that plus lifetime, and the old session dead |
| LoginProofs.RestartUnfinished | src/modules/logic/base.cpp:239-254 | What a restart does to any user's set of unfinished sessions, when it succeeds and when it throws |
| LoginProofs.RestartStartsAnew | src/modules/logic/base.cpp:239-254 | A successful restart returns the user ref and the new session's id |
| LoginProofs.UserCount | src/modules/logic/base.cpp:217-229 | A user's array is as long as the number of that user's unfinished sessions |
| LoginStore.Base.StartSessionForEmail | src/modules/logic/base.cpp:21-44 | New collections and result, or the right exception |
| LoginStore.Base.NewSessionId | src/modules/logic/base.cpp:159-176 | The retry loop returns the first unused id of the allowed attempts, or gives up |
| LoginStore.Base.StartSession | src/modules/logic/base.cpp:152-233 | Inserts the session and appends its OID to the user's array |
| LoginStore.Base.ContinueSession | src/modules/logic/base.cpp:51-89 | New collections and result of a continue, with its restart |
| LoginStore.Base.FinishSession | src/modules/logic/base.cpp:94-131 | Lowers valid_until before it tests the old value, then pulls the OID |
| LoginStore.Base.RestartSession | src/modules/logic/base.cpp:239-254 | Finishes, then starts for the user object found before; stops at the first exception |
| FriendSample.FillIndexes | src/modules/logic/user.cpp:151-166 | Friend sampling: the indexes are the first min(n, 6) different draws in order, in range and pairwise different, on any draws that show that many, and no more draws are made than fill the sample |
| FriendSample.DrawUnused | src/modules/logic/user.cpp:162-164 | The retry loop stops at the first draw not among the indexes so far |
| FriendSample.UnusedExists | src/modules/logic/user.cpp:160-165 | Pigeonhole: while the sample is not complete some index is unused |
| FriendSample.FairIsEnough | src/modules/logic/user.cpp:160-165 | On draws where every index comes up, the loops end for any number of friends |
| FriendSample.FilledIff | src/modules/logic/user.cpp:160-165 | The nested loops fill the sample if and only if the draws ever show as many different values as it needs, that is, if so many different values come up |
| FriendSample.StuckDraws | src/modules/logic/user.cpp:160-165 | Such a stream that fails: draws that repeat one value show no second one |

## Left out

- Sockets, acceptors, worker processes, signals and logging: only completions of reads and writes are modelled; the handlers of one session run one at a time, as they do on one `io_service` thread.
- Mongo and BSON: the collections are maps with atomic find, insert and update; operations of several processes do not interleave.
- LoginStore.Base.StartSession: an insert that fails is not modelled.
- LoginStore.Base.FinishSession: the `$err` field of a reply is not modelled.
- Buffer lifetimes and aliasing: buffers are values.
- TemplatePage.GenerateValue: the debug chunk's buffers over temporary strings are taken at the value they had.
- What hosts answer (files, JSON, status pages): an input of the session model, as a function of the request's number, the host and the request.
- Host manager, file cache, module registration and configuration parsing: map look-ups; the known template commands and parsed headers are fixed lists.
- `file` hosts' path checks: they rest on the file system and on expressions from the configuration.
- Password hashing, id generation, time formatting, MIME detection: inputs. A cookie is its id and expiry time, not their text.
- Adding and removing friends, user pages and user lists as JSON: the values are not escaped, so there is no round trip.
- HttpRequest.HttpRequest.ProcessStream: exceptions are returned as values; allocation of the body fails above a limit that is a parameter.
- Regular expressions use the C locale with one character per byte.
- Header and query multimaps are multisets: their iteration order is not modelled.
- TemplatePage.Page.Load: mapping the file and its errors are left out; an empty file is an empty text.
- ServerSession.Session.ProcessRequest: asks that the request is not redirected forever (`Returns`), as the source does not return from one that is.
- ServerSession.Session.ResponseHandler: popping an empty queue is undefined in the source; here it does nothing, and `ResponsesInOrder` shows that it never happens.
