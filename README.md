# Print routes of the sirius printer server: upload check, caption template, raw-print routing

This project models, in Dafny, the self-contained rules of `sirius/web/printer_print.py`,
the Flask blueprint through which users and API clients send print jobs to their
little printers:

- **Upload filename check** (`ALLOWED_EXTENSIONS`, `allowed_file`): a file name is
  accepted when it has a dot and the text after its last dot is `png`, `jpg`, `jpeg`
  or `gif`, compared exactly. Python's `str.rsplit('.', 1)` is modelled as
  `Upload.RSplitOnce` on top of a last-occurrence search.
- **Caption template** (`gentemplate`): an HTML snippet with one replacement field
  `{0}` and two escaped braces, filled in with `str.format`. The template literal
  is kept as in the source (doubled braces included) and the part of `str.format`
  it uses is modelled (`Template.Format`: `{{`, `}}`, `{0}`, plain text). That the
  result is a fixed prefix, the caption verbatim, and a fixed suffix with single
  braces is proved, not assumed.
- **Raw-print routing** (`raw_printer_print_api`): the `if/elif` chain from the
  action in the URL to one of six message variants. The chain is kept as the list
  of its seven guards in source order, duplicate `print` branch included, and a
  first-match search over it; the routing it implements is the table
  `Routing.RouteTable`. Images are named by provenance: `Uploaded(body)` is the raw
  pipeline applied to the decoded request body, `Rendered(html)` the default
  pipeline applied to an HTML text. The route's result is the message handed to
  `protocol_loop.send_message`, or `None` when the route raises first.

Modules: `Wrappers` (Option), `Upload`, `Template`, `Messages` (the message record
and the image provenance), `Routing`.

For an unknown action the source reaches `assert False, "wtf print route {}".format(x)`.
`x` is not defined, so evaluating the message raises a `NameError` instead of the
intended `AssertionError`; with assertions disabled the `send_message` call raises
an `UnboundLocalError` for `hardware_message` instead. In every case nothing is sent,
which is what the model's `None` stands for; the kind of exception is not modelled.

## Model

| member | source | states |
|---|---|---|
| `Upload.RSplitOnce` | sirius/web/printer_print.py:33 | `rsplit('.', 1)` gives one part exactly when there is no dot, and then the whole name; otherwise two parts that rebuild the name around a dot, the second part holding no dot. |
| `Upload.LastDotSplit` | sirius/web/printer_print.py:33 | In a name with a dot, any dot followed by no other dot is where `rsplit` cuts: the split is the text before and after it. |
| `Upload.AllowedFile` | sirius/web/printer_print.py:27-33 | The name is accepted iff some dot that no other dot follows is followed by exactly one of `png`, `jpg`, `jpeg`, `gif`. |
| `Upload.ExtensionAfterLastDot` | sirius/web/printer_print.py:31-33 | For any stem and any dot-free extension, `stem.ext` is accepted iff the extension is allowed: only the text after the last dot matters. |
| `Upload.NoDotRejected` | sirius/web/printer_print.py:32 | A name without a dot is rejected. |
| `Upload.DoubleExtensionAccepted` | sirius/web/printer_print.py:31-33 | `a.tar.png` is accepted. |
| `Upload.TrailingExtensionRejected` | sirius/web/printer_print.py:31-33 | `x.png.exe` is rejected. |
| `Upload.UpperCaseRejected` | sirius/web/printer_print.py:27-33 | `photo.PNG` is rejected: the comparison is case-sensitive. |
| `Upload.EmptyExtensionRejected` | sirius/web/printer_print.py:31-33 | `photo.` (empty extension) is rejected. |
| `Upload.BareDotExtensionAccepted` | sirius/web/printer_print.py:31-33 | `.gif` is accepted: the empty stem is not checked. |
| `Template.Format` | sirius/web/printer_print.py:36-48 | `str.format` with field `{0}`: a template without braces formats to itself. |
| `Template.FormatPlainPrefix` | sirius/web/printer_print.py:36-48 | Brace-free text in front of a template is copied unchanged by `str.format`. |
| `Template.FormatOpenEscape` | sirius/web/printer_print.py:39 | `{{` formats to a single `{`. |
| `Template.FormatCloseEscape` | sirius/web/printer_print.py:46 | `}}` formats to a single `}`. |
| `Template.FormatField` | sirius/web/printer_print.py:37 | `{0}` formats to the argument, inserted as it is and never scanned for braces. |
| `Template.FormatTemplate` | sirius/web/printer_print.py:36-48 | Formatting the caption template with a byte-string caption succeeds and gives the prefix ending in `<p>`, the caption, and the suffix starting with `</p>` in which the doubled braces are single. |
| `Template.GenTemplate` | sirius/web/printer_print.py:35-49 | `gentemplate(instr)` is the fixed prefix, then `instr` verbatim, then the fixed suffix. |
| `Template.CaptionRoundTrip` | sirius/web/printer_print.py:35-49 | A byte-string caption can be read back out of the generated template, braces included. |
| `Template.GenTemplateInjective` | sirius/web/printer_print.py:35-49 | Two captions give the same template iff they are equal. |
| `Template.CaptionInParagraph` | sirius/web/printer_print.py:37 | The caption is immediately preceded by `<p>` and immediately followed by `</p>`. |
| `Routing.Lookup` | sirius/web/printer_print.py:243-286 | The variant the `if/elif` chain selects: `None` exactly when no guard equals the action (the chain falls through), otherwise the variant of a branch whose guard equals the action; which branch, the first, is fixed by `FirstMatch` and `RouteMatchesTable`. |
| `Routing.FirstMatch` | sirius/web/printer_print.py:243-286 | The `if/elif` chain takes no branch iff no guard equals the action; otherwise it takes a branch whose guard equals the action and none of whose predecessors' guards does. |
| `Routing.ShadowedBranchIrrelevant` | sirius/web/printer_print.py:258-267 | In any chain, a branch whose guard repeats an earlier guard is never taken, and deleting it changes no routing decision. |
| `Routing.DuplicatePrintBranchIrrelevant` | sirius/web/printer_print.py:258-267 | The second `print` branch is unreachable, and the chain without it routes every action the same way. |
| `Routing.RouteMatchesTable` | sirius/web/printer_print.py:243-286 | The chain routes each of the six actions to its variant (`deliveryandface` to SetDelivery, `printandface` to SetDeliveryAndPrint, `delivery` to SetDeliveryNoFace, `print` to SetDeliveryAndPrintNoFace, `personalityandmessage` to SetPersonalityWithMessage, `personality` to SetPersonality) and every other action nowhere. |
| `Routing.BuildMessage` | sirius/web/printer_print.py:244-284 | Each branch builds its variant for the printer's address with the upload as the first pixel field and every other field a rendered image; personality captions are `Nothing to print`, `Cannot see bridge`, `Cannot see internet`, plus `Hi there!` as the message of SetPersonalityWithMessage. |
| `Routing.RawPrintApi` | sirius/web/printer_print.py:234-293 | A message is sent iff the action is one of the six; it is then of the table's variant, addressed to the printer, with the upload in its first pixel field and rendered captions in all others. Any other action sends nothing. |
| `Routing.SingleImageRoutes` | sirius/web/printer_print.py:243-267 | The four single-image actions send exactly their variant with the upload as the sole `pixels` field. |
| `Routing.PersonalityRoutes` | sirius/web/printer_print.py:268-284 | The two personality actions send exactly their variant: upload as face, rendered fixed captions in the other fields. |
| `Routing.CaptionImage` | sirius/web/printer_print.py:272-275 | `default_pipeline(gentemplate(c))` as a provenance term: an image rendered from HTML that holds `c` verbatim between the template's fixed prefix and suffix. |
| `Routing.CaptionsRenderDistinct` | sirius/web/printer_print.py:272-275 | The four fixed captions are rendered from four different templates. |
| `Routing.SlotsDistinct` | sirius/web/printer_print.py:268-284 | No two pixel fields of a routed message share a provenance: the upload fills only the first field and each caption template fills one field (a statement about how the images are produced, not about rendered pixel content). |

## Left out

- Flask plumbing of every route: request and form handling, `flask.abort`, flash messages, redirects and template rendering (sirius/web/printer_print.py:66-148, 151-204, 295-338) are web glue.
- The owner-or-friend permission check (lines 76-83): it depends on ORM objects and the logged-in user.
- Database access (`hardware.Printer.query.get(1)`, `db.session.add`) and the stats counters; the printer's device address is a parameter of `Routing.RawPrintApi` instead. A missing printer 1 (an `AttributeError` in the source) is not modelled.
- The `print action` logging statement at line 242.
- File I/O of `upload_file` and `imageprint`: the save to `/var/upload` and the pick of the newest upload by ctime (lines 159, 206-212). Only the `allowed_file` decision is modelled.
- Base64 decoding, PIL image loading and saving, `image_encoding.*` pipelines, `templating.default_template`, the `messages.*` constructors and `protocol_loop.send_message`: their source is not part of this model. Images are symbolic provenance terms and a message is the record of its fields.
- `Routing.RawPrintApi`: does not model a failure of `raw_image_pipeline` on a malformed body (line 241), which would raise before routing; the body is taken to decode to an image.
- `Routing.RawPrintApi`: the kind of exception raised for an unknown action (`NameError`, or `UnboundLocalError` when assertions are disabled) is not distinguished; only that nothing is sent.
- `Template.GenTemplate`: the caption is modelled as a Python 2 byte string inserted character by character; a Python 2 `unicode` caption with non-ASCII characters makes `str.format` on the byte-string template raise `UnicodeEncodeError`, which the model does not capture (every caller passes ASCII byte literals).
- `Template.Format`: models only the format-string syntax the caption template uses (`{{`, `}}`, `{0}`); any other replacement field yields `None` rather than Python's particular exception or its format-spec handling.
- `randomly_change_personality` in sirius/web/admin.py is glue; its `gentemplate` is character-for-character the one modelled here. sirius/web/atkinson.py only renders a page.
- The dithering, bit packing and device protocol that the routes call are in `sirius/coding/image_encoding.py` and `sirius/protocol/`, which are not part of this model.
