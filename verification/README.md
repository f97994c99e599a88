# iocinfo page generator — a Dafny model

`iocinfo.py` builds documentation pages for EPICS IOCs and services. For each IOC
directory it reads `start.log`, an optional YAML file, `st.cmd` and `pvlist.txt`, and
writes a markdown page. If a site `values.yaml` is given, it does two more things:

- if its `iocs` list is non-empty, it restricts the IOC directories to the IOCs that list names (an empty list keeps every directory);
- it writes one page per service that has an ingress or a load balancer.

This project models the logic of that script. Files and the YAML parser are replaced by
values, and the modelled logic is:

- **Metadata** (`metadata.dfy`) models `extract_ioc_metadata`:
  - the `key: value` lines of the start log are collected into a dictionary by a loop;
  - the line is split at its first colon, both sides are stripped, and the last line wins;
  - the page takes `IOC Device Group` (default `other`) and `IOC Asset` (default empty) from it.
- **Links** (`links.dfy`) models `make_urls_clickable`:
  - the substitution of `https?://[^\s]+` by `[url](url)` is written as a leftmost, greedy scanner;
  - it is proved against a flattening of the scanned pieces.
- **Services** (`services.dfy`) models `load_services_with_ingress`:
  - which services are kept, in configuration order, and the URL each gets;
  - what a service page shows: the bare address for a load balancer without ingress, otherwise a link.
- **Pages** (`pages.dfy`) models the decisions `main` makes:
  - the allow-list filter of IOC directories;
  - the IOC description, where the last entry of a name wins;
  - the PV count;
  - the quick-navigation list, built by successive appends;
  - the device page and the service page each item produces.
- **Text** (`text.dfy`) models the Python string operations the script relies on:
  - `str.strip()`, whose whitespace is the set CPython's `str.isspace()` and the regex class `\s` share;
  - `str.split(sep)` and `sep.join(parts)`;
  - line-by-line file iteration;
  - `str(n)` for a count.
- **Values** (`values.dfy`) holds the parts of `values.yaml` the script reads.
- **Wrappers** (`wrappers.dfy`) holds `Option`.

## Model

| member | source | states |
|---|---|---|
| Text.StripShape | iocinfo.py:15 | `strip()` returns a string with no whitespace at either end. It returns the empty string exactly when the input is all whitespace. |
| Text.StripPadded | iocinfo.py:15 | `strip()` removes exactly the surrounding whitespace: a stripped core survives any whitespace padding unchanged. |
| Text.Strip | iocinfo.py:15 | `str.strip()`. `StripShape`, `StripPadded` and `StripSplit` characterise it. |
| Text.LStripShape | iocinfo.py:15 | The left strip keeps a suffix. The prefix it drops is all whitespace, and the kept part starts with a non-space. |
| Text.RStripShape | iocinfo.py:15 | The right strip keeps a prefix. The suffix it drops is all whitespace, and the kept part ends with a non-space. |
| Text.FirstIndex | iocinfo.py:14 | `split(':', 1)` cuts at the first colon: the index holds a colon and no colon comes before it. |
| Text.FirstIndexAt | iocinfo.py:14 | A colon with no colon before it is the one the split finds. |
| Text.SplitOn | iocinfo.py:123 | `split('\n')` returns at least one part, and no part holds the separator. |
| Text.JoinSplit | iocinfo.py:123 | Joining the parts of a split with the separator gives back the original text. |
| Text.SplitJoin | iocinfo.py:194 | Splitting a join gives back the parts, provided no part holds the separator. |
| Text.SplitAtSep | iocinfo.py:123 | Splitting at a separator yields the separator-free head, then the split of the rest. |
| Text.Join | iocinfo.py:194 | `sep.join(parts)`. `JoinSplit` and `SplitJoin` characterise it as the inverse of the split. |
| Text.FileLinesShape | iocinfo.py:12 | Each line the iteration reads is non-empty and holds no newline except a final one. Every line but the last ends with a newline. |
| Text.ConcatFileLines | iocinfo.py:12 | Reading a file line by line loses nothing: the lines put together are the file. |
| Text.FileLinesCons | iocinfo.py:12 | A newline-terminated line at the head of a file is the first line read. |
| Text.FileLines | iocinfo.py:12 | The lines `for line in f` yields. `FileLinesShape`, `ConcatFileLines` and `FileLinesCons` characterise it. |
| Text.StripSplit | iocinfo.py:15 | Every string is its stripped core between a whitespace prefix and a whitespace suffix. |
| Text.StripNoNewline | iocinfo.py:12-15 | A line whose only newline is its last character strips to a text with no newline. |
| Text.DecimalRoundTrip | iocinfo.py:143 | The count shown in the navigation entry reads back as that count. |
| Text.DecimalNoLeadingZero | iocinfo.py:143 | The rendered count has no leading zero unless the count is zero, as `str(n)` renders it. |
| Text.Decimal | iocinfo.py:143 | `str(n)` for a count: a non-empty run of digits. `DecimalRoundTrip` and `DecimalNoLeadingZero` characterise it. |
| Metadata.ExtractMetadata | iocinfo.py:7-16 | The loop over the log's lines computes the dictionary of its colon lines. |
| Metadata.MetadataKeys | iocinfo.py:12-15 | A key is in the dictionary exactly when some line with a colon has that stripped key. |
| Metadata.MetadataLastWins | iocinfo.py:15 | When a key appears more than once, the last line carrying it decides its value. |
| Metadata.KeyValueSplit | iocinfo.py:14-15 | A line is split at its first colon only. Later colons stay in the value, and whitespace around both sides is stripped. |
| Metadata.MetadataRoundTrip | iocinfo.py:7-16 | A log written as `key: value` lines parses back to the dictionary of those entries, last one winning. Keys must be colon-free and both sides stripped. |
| Metadata.KeyOf | iocinfo.py:14-15 | The key of a colon line: the text before its first colon, stripped. `KeyValueSplit` characterises it. |
| Metadata.ValueOf | iocinfo.py:14-15 | The value of a colon line: everything after its first colon, stripped. `KeyValueSplit` characterises it. |
| Metadata.MetadataOf | iocinfo.py:12-15 | The dictionary of the colon lines of a log. `MetadataKeys` characterises its keys, `MetadataLastWins` its values, and `MetadataRoundTrip` its inverse. |
| Metadata.UnterminatedEntry | iocinfo.py:12-15 | A log holding one well-formed `key: value` line and no final newline parses to that single entry. |
| Metadata.MetadataValuesOneLine | iocinfo.py:12-15 | No value read from the log's lines holds a newline: the line end is stripped with the value. |
| Metadata.AssetOneLine | iocinfo.py:92 | The `IOC Asset` reference a device page takes from its log never holds a newline. |
| Metadata.DevGroup | iocinfo.py:91 | The device group is the `IOC Device Group` value, else `other`. `MetadataDefaults` and `DevGroupFromLog` characterise it. |
| Metadata.Asset | iocinfo.py:92 | The asset reference is the `IOC Asset` value, else empty. `MetadataDefaults` and `AssetOneLine` characterise it. |
| Metadata.MetadataDefaults | iocinfo.py:90-92 | Without an `IOC Device Group` line the group is `other`. Without an `IOC Asset` line the asset is empty. A missing log gives both defaults. |
| Metadata.DevGroupFromLog | iocinfo.py:90-91 | A log holding `IOC Device Group: Vacuum` puts the device in group `Vacuum`. |
| Metadata.DevGroupFromUnterminatedLog | iocinfo.py:90-91 | A log holding `IOC Device Group: Vacuum` with no final newline also puts the device in group `Vacuum`. |
| Links.RunLength | iocinfo.py:20 | `[^\s]+` consumes the whole run of non-space characters, up to the first space or the end. |
| Links.ScanFlatten | iocinfo.py:18-21 | The scan loses nothing: its pieces spell out the text. |
| Links.ScanUrls | iocinfo.py:20 | Every URL piece matches the pattern: a scheme, at least one more character, no whitespace. |
| Links.ScanLeftmost | iocinfo.py:21 | No match starts at a character the scan keeps as plain text. |
| Links.ScanLongest | iocinfo.py:20-21 | A URL piece is followed by a whitespace character or by the end of the text (greedy match). |
| Links.LinkifyNoUrl | iocinfo.py:21 | Text in which the pattern matches nowhere is left unchanged. |
| Links.ScanFindsUrl | iocinfo.py:21 | A match anywhere in the text yields at least one URL piece. |
| Links.Scan | iocinfo.py:20-21 | The leftmost, greedy search of `re.sub` for the pattern. `ScanFlatten`, `ScanUrls`, `ScanLeftmost`, `ScanLongest` and `ScanFindsUrl` characterise it. |
| Links.Render | iocinfo.py:21 | The replacement `[\1](\1)` applied to each match, other characters kept. `RenderLength` and `LinkifyUnchangedIff` characterise it. |
| Links.RenderLength | iocinfo.py:21 | Rendering never shortens the text, and a URL piece makes it strictly longer. |
| Links.LinkifyUnchangedIff | iocinfo.py:18-21 | `make_urls_clickable` leaves the text unchanged exactly when no URL occurs in it. |
| Links.Linkify | iocinfo.py:18-21 | `make_urls_clickable`. `LinkifyUnchangedIff`, `LinkifyNoUrl` and the four `Scan` lemmas characterise it. |
| Services.LoadServices | iocinfo.py:29-60 | The loop lists the services with an ingress flag or a load balancer, in configuration order, with their URLs. It lists no more services than are configured. |
| Services.Selection | iocinfo.py:39-58 | The list of selected services, in configuration order. `SelectionMembers`, `SelectionAppend` and `SelectionDistinct` characterise it, and `LoadServices` is proved equal to it. |
| Services.ServiceUrl | iocinfo.py:43-52 | The URL of a service. `ServiceUrlParts` characterises it. |
| Services.SelectionMembers | iocinfo.py:39-58 | A service is listed exactly when some configured service was selected and produced it, with the derived URL. |
| Services.SelectionAppend | iocinfo.py:39-58 | The list keeps configuration order: the list for a concatenation is the concatenation of the lists. |
| Services.SelectionDistinct | iocinfo.py:39 | Service names are mapping keys, so no name is listed twice. |
| Services.HasIngress | iocinfo.py:41 | The ingress test `enable_ingress or ingress.enabled`, also used at iocinfo.py:220. `ConnectionOfListed` characterises it. |
| Services.Selected | iocinfo.py:41 | The selection test: an ingress or a `loadbalancer` key. `SelectionMembers` characterises it. |
| Services.Host | iocinfo.py:43-48 | The host of the URL: the load balancer if set, otherwise `<beamline>-<name>.<namespace>`. `ServiceUrlParts` characterises it. |
| Services.ServiceUrlParts | iocinfo.py:43-52 | The URL starts with `http://` and ends with the configured path. The host is the load balancer if set, otherwise `<beamline>-<name>.<namespace>`. |
| Services.ConnectionOfListed | iocinfo.py:220-231 | A listed service shows the URL section exactly when it has an ingress. Otherwise it shows the load-balancer address, which is the host of its URL. |
| Services.ConnectionOf | iocinfo.py:220-231 | What a service page shows: the address for a load balancer without ingress, else the URL section. `ConnectionOfListed` characterises it. |
| Services.ConnectionText | iocinfo.py:226-231 | The markdown of the connection part. `LoadBalancerAddress` shows it for a load balancer. |
| Services.ServiceDescription | iocinfo.py:217 | The description shown for a service. `ServiceDescriptionDefault` characterises it. |
| Services.ServiceDescriptionDefault | iocinfo.py:217 | An absent `desc` gives the fixed default text. A present `desc` is shown as it is. |
| Services.LoadBalancerAddress | iocinfo.py:40-58 | A service with only a load balancer at 10.0.0.5 is listed with URL `http://10.0.0.5`. Its page shows `**Connection IP:** 10.0.0.5`. |
| Services.LoadBalancerIngress | iocinfo.py:220-231 | The same load balancer with ingress enabled is shown as a link to `http://10.0.0.5`. |
| Pages.IocNames | iocinfo.py:70 | The allow-list holds the configured IOC names, one per entry, in order. |
| Pages.KeepAllowed | iocinfo.py:82 | The allow-list comprehension. `KeepAllowedMembers` characterises it. |
| Pages.FilterIocs | iocinfo.py:81-82 | The directories `main` processes. `FilterIocsMembers` and `FilterIocsAppend` characterise it. |
| Pages.KeepAllowedMembers | iocinfo.py:82 | The list comprehension keeps exactly the listed directories that are on the allow-list. |
| Pages.FilterIocsMembers | iocinfo.py:81-82 | A directory is processed exactly when it is listed and, if the allow-list is non-empty, on it. Without a values file, or with an empty list, the listing is kept as it is. |
| Pages.FilterIocsAppend | iocinfo.py:81-82 | Filtering keeps listing order. |
| Pages.AllowedIocs | iocinfo.py:65-70 | `allowed_iocs`: none without a values file, else the configured names. `AllowedIocsFilter` characterises it. |
| Pages.AllowedIocsFilter | iocinfo.py:65-82 | With a values file that lists IOCs, a directory is processed exactly when some IOC entry carries its name. Without a values file, or with an empty list, every listed directory is processed. |
| Pages.IocDescription | iocinfo.py:129-131 | The description of an IOC. `IocDescriptionMissing` and `IocDescriptionLast` characterise it. |
| Pages.IocDescriptionMissing | iocinfo.py:129-131 | An IOC the values file does not name has no description. |
| Pages.IocDescriptionLast | iocinfo.py:71-131 | The name-to-entry dictionary keeps the last entry of each name, so the description is that entry's. |
| Pages.PvCount | iocinfo.py:123 | The PV count. `PvCountNonBlankLines`, `BlankSplit` and `WhitespacePvList` characterise it. |
| Pages.PvCountNonBlankLines | iocinfo.py:123 | Stripping before the split changes nothing: the PV count is the number of lines holding a non-whitespace character. |
| Pages.BlankSplit | iocinfo.py:123 | Whitespace-only text has no non-blank line. |
| Pages.WhitespacePvList | iocinfo.py:120-143 | A non-empty `pvlist.txt` holding only whitespace still gets its navigation entry, with the count 0. |
| Pages.NavLinks | iocinfo.py:133-143 | The appended list starts with the asset link when there is one, else with the start log. It meets the navigation conditions. |
| Pages.NavForMembers | iocinfo.py:133-143 | The start log is always listed. The asset, YAML, st.cmd and PV entries are listed exactly when their content is non-empty. |
| Pages.NavForUnique | iocinfo.py:133-143 | The navigation conditions (fixed order, expected entries, presence) determine the list completely. |
| Pages.BuiltNavFor | iocinfo.py:133-143 | The list of optional entries around the start log meets the navigation conditions. |
| Pages.RankedSameElements | iocinfo.py:133-143 | Two lists in the fixed entry order that hold the same entries are equal. |
| Pages.NavLine | iocinfo.py:136-143 | The markdown line of each navigation entry. `NavLineOneLine` and `DecimalRoundTrip` characterise it. |
| Pages.NavLineOneLine | iocinfo.py:136-143 | Each navigation entry renders as a single line, provided the asset reference has no newline. |
| Pages.NavBlockLines | iocinfo.py:194 | Splitting the joined navigation block at newlines gives back the entries' lines, in order. |
| Pages.NavBlock | iocinfo.py:194 | The quick-navigation block `chr(10).join(nav_links)`. `NavBlockLines` and `PageNavBlock` characterise it. |
| Pages.PageNavBlock | iocinfo.py:133-194 | On every device page, the joined navigation block splits back into its entries, one line each. No assumption on the log is needed. |
| Pages.BuildIocPage | iocinfo.py:85-143 | The page gets the directory's name, the group and asset defaults, and the linkified start log. It also gets the description, the PV count, the raw section contents and the navigation list. |
| Pages.ServicePageOf | iocinfo.py:211-231 | What a service page is built from: the service name, the connection part and the description. `ConnectionOfListed` and `ServiceDescriptionDefault` characterise it, and `Generate` builds one per listed service. |
| Pages.Generate | iocinfo.py:62-254 | There is one device page per processed directory, in listing order, and one service page per listed service. With a values file that names IOCs, every page belongs to a named, listed IOC. |

## Left out

- File and directory access is replaced by values: `os.listdir`, `os.path.isdir`, `os.path.exists`, `open` and the writes of the markdown files. A missing file is modelled as empty text.
- Which YAML file is read is left out. `yaml_files[0]` depends on `os.listdir` order, so the chosen file's text is an input.
- `yaml.safe_load` is not modelled. The model takes its result: the ingress flags as their truthiness, and `loadbalancer`, `path` and `desc` as text when present.
- The model assumes a well-formed `values.yaml`, so the exceptions the script raises on a malformed one are not represented. They include:
  - text that is not valid YAML, on which `safe_load` raises;
  - an empty file, for which `safe_load` returns no mapping, or a document that is not a mapping;
  - an `epicsConfiguration` that is null or not a mapping;
  - a `services` value that is not a mapping;
  - an `iocs` value that is not a list, or an IOC entry that is not a mapping;
  - a service whose configuration is null, a scalar or a list;
  - an IOC entry without a `name`;
  - an `ingress` value that is not a mapping, but only when `enable_ingress` is falsy, because the `or` evaluates the lookup only then;
  - a `path` that is not a string, but only for a service that is selected.
- Newline translation on reading is left out. Text is taken after universal-newline translation, so `\r\n` line endings are not modelled.
- Unicode whitespace is a fixed character set (the one CPython uses for `str.isspace()` and `\s`). There is no Unicode database.
- The markdown templates are not modelled character by character. A page is the record of what it is built from: its front-matter fields, the contents of its sections, and the navigation list as a datatype with its exact lines. The record does not capture the order of the sections, or which optional sections are written.
- `datetime.now()`, the progress messages (`print`), the truncated `asset_info` message and the command-line parsing are left out: they are clock and console I/O.
- `load_ioc_list` is covered only by the `Values` record: it only reads the parsed YAML.
