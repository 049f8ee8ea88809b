/**
 * The metadata generators of build.py: the output file name, the
 * package-info JSON document and the RFC 822-style control file, each a
 * pure function of the application manifest (appinfo.json).
 */
module Metadata {
  import opened Base
  import opened Text
  import opened Json

  /**
   * The parsed manifest: its string-valued fields by key. The generators
   * index it with ['id'], ['version'], ['title'] and ['vendor'], and
   * gen_control also passes the whole of it as keyword arguments.
   */
  type AppInfo = map<string, string>

  /** DEB_VERSION, b"2.0\n". */
  const DebVersion: seq<byte> := [0x32, 0x2E, 0x30, 0x0A]

  /** The first of `keys` the manifest lacks, in the order the code indexes them. */
  function FirstMissing(appinfo: AppInfo, keys: seq<string>): (r: Option<string>)
    ensures r.None? <==> forall i :: 0 <= i < |keys| ==> keys[i] in appinfo
    ensures r.Some? ==> exists i :: 0 <= i < |keys| && keys[i] == r.value && r.value !in appinfo
                         && forall j :: 0 <= j < i ==> keys[j] in appinfo
  {
    if keys == [] then None
    else if keys[0] !in appinfo then Some(keys[0])
    else
      var r := FirstMissing(appinfo, keys[1..]);
      assert forall i :: 1 <= i < |keys| ==> keys[1..][i - 1] == keys[i];
      r
  }

  /* ---------------- gen_filename ---------------- */

  /** gen_filename: "{id}_{version}_all.ipk". */
  function GenFilename(appinfo: AppInfo): (r: Result<string>)
    ensures r.Ok? <==> "id" in appinfo && "version" in appinfo
    ensures r.Err? ==> r.error == KeyError(if "id" !in appinfo then "id" else "version")
    ensures r.Ok? ==>
      var id, version, name := appinfo["id"], appinfo["version"], r.value;
      && |name| == |id| + |version| + 9
      && name[..|id|] == id && name[|id|] == '_'
      && name[|id| + 1..|name| - 8] == version
      && name[|name| - 8..] == "_all.ipk"
  {
    if "id" !in appinfo then Err(KeyError("id"))
    else if "version" !in appinfo then Err(KeyError("version"))
    else Ok(appinfo["id"] + "_" + appinfo["version"] + "_all.ipk")
  }

  /* ---------------- gen_control ---------------- */

  /** The lines of CONTROL_TEMPLATE with its three placeholders filled in. */
  function ControlLines(id: string, version: string, size: nat): seq<string>
  {
    [ "Package: " + id,
      "Version: " + version,
      "Section: misc",
      "Priority: optional",
      "Architecture: all",
      "Installed-Size: " + Decimal(size),
      "Maintainer: N/A <nobody@example.com>",
      "Description: This is a webOS application.",
      "webOS-Package-Format-Version: 2",
      "webOS-Packager-Version: x.y.x" ]
  }

  /** The filled template: its ten lines, each ended by a newline. */
  function ControlText(id: string, version: string, size: nat): string
  {
    Terminated(ControlLines(id, version, size))
  }

  /**
   * gen_control: CONTROL_TEMPLATE.format(size=size, **appinfo), with "\r\n"
   * replaced by "\n", encoded as UTF-8. A manifest that has its own "size"
   * field makes the call itself fail (the keyword is given twice) before
   * any field is looked up.
   */
  function GenControl(appinfo: AppInfo, size: nat): (r: Result<seq<byte>>)
    ensures r.Ok? <==> "size" !in appinfo && "id" in appinfo && "version" in appinfo
    ensures r.Err? ==> r.error == (if "size" in appinfo then DuplicateSize
                                   else KeyError(if "id" !in appinfo then "id" else "version"))
  {
    if "size" in appinfo then Err(DuplicateSize)
    else if "id" !in appinfo then Err(KeyError("id"))
    else if "version" !in appinfo then Err(KeyError("version"))
    else Ok(Utf8(ReplaceCrlf(ControlText(appinfo["id"], appinfo["version"], size))))
  }

  /** The control file is the UTF-8 encoding of the filled template, with "\r\n" replaced. */
  lemma GenControlDecodes(appinfo: AppInfo, size: nat)
    requires GenControl(appinfo, size).Ok?
    ensures Utf8Decode(GenControl(appinfo, size).value) == Some(ReplaceCrlf(ControlText(appinfo["id"], appinfo["version"], size)))
  {
    Utf8RoundTrip(ReplaceCrlf(ControlText(appinfo["id"], appinfo["version"], size)));
  }

  predicate StartsWith(s: string, prefix: string)
  {
    |prefix| <= |s| && s[..|prefix|] == prefix
  }

  /** The value of the first "Key: value" line for `key`, as a package installer reads it. */
  function ControlField(lines: seq<string>, key: string): Option<string>
  {
    if lines == [] then None
    else if StartsWith(lines[0], key + ": ") then Some(lines[0][|key| + 2..])
    else ControlField(lines[1..], key)
  }

  predicate SingleLine(s: string)
  {
    '\n' !in s && '\r' !in s
  }

  /**
   * Reading back the control file gives the manifest's id and version and
   * the size, on the lines the template puts them, and the fixed lines
   * verbatim, provided the id and version are single lines.
   */
  lemma ControlReadBack(appinfo: AppInfo, size: nat)
    requires "size" !in appinfo && "id" in appinfo && "version" in appinfo
    requires SingleLine(appinfo["id"]) && SingleLine(appinfo["version"])
    ensures GenControl(appinfo, size).Ok?
    ensures
      var id, version := appinfo["id"], appinfo["version"];
      var lines := Split(ControlText(id, version, size), '\n');
      && Utf8Decode(GenControl(appinfo, size).value) == Some(ControlText(id, version, size))
      && lines == ControlLines(id, version, size) + [""]
      && ControlField(lines, "Package") == Some(id)
      && ControlField(lines, "Version") == Some(version)
      && ControlField(lines, "Installed-Size") == Some(Decimal(size))
  {
    var id, version := appinfo["id"], appinfo["version"];
    var ls := ControlLines(id, version, size);
    ControlLinesSingle(id, version, size);
    TerminatedExcludes(ls, '\r');
    ReplaceCrlfWithoutCr(Terminated(ls));
    GenControlDecodes(appinfo, size);
    SplitTerminated(ls);
    ControlFieldsOfLines(id, version, size);
  }

  lemma ControlLinesSingle(id: string, version: string, size: nat)
    requires SingleLine(id) && SingleLine(version)
    ensures forall i :: 0 <= i < 10 ==> SingleLine(ControlLines(id, version, size)[i])
  {
    var ls := ControlLines(id, version, size);
    var d := Decimal(size);
    assert SingleLine(d) by {
      assert forall i :: 0 <= i < |d| ==> '0' <= d[i] <= '9';
    }
    assert SingleLine(ls[0]) && SingleLine(ls[1]) && SingleLine(ls[5]);
    FixedControlLinesSingle(ls);
  }

  lemma FixedControlLinesSingle(ls: seq<string>)
    requires |ls| == 10
    requires ls[2] == "Section: misc" && ls[3] == "Priority: optional" && ls[4] == "Architecture: all"
    requires ls[6] == "Maintainer: N/A <nobody@example.com>"
    requires ls[7] == "Description: This is a webOS application."
    requires ls[8] == "webOS-Package-Format-Version: 2" && ls[9] == "webOS-Packager-Version: x.y.x"
    ensures forall i :: 2 <= i < 10 && i != 5 ==> SingleLine(ls[i])
  {
    SectionLineSingle(); PriorityLineSingle(); ArchitectureLineSingle(); MaintainerLineSingle(); DescriptionLineSingle(); FormatVersionLineSingle(); PackagerVersionLineSingle();
  }

  // One lemma per fixed line keeps each literal in a proof of its own.
  lemma SectionLineSingle() ensures SingleLine("Section: misc") {}
  lemma PriorityLineSingle() ensures SingleLine("Priority: optional") {}
  lemma ArchitectureLineSingle() ensures SingleLine("Architecture: all") {}
  lemma MaintainerLineSingle() ensures SingleLine("Maintainer: N/A <nobody@example.com>") {}
  lemma DescriptionLineSingle() ensures SingleLine("Description: This is a webOS application.") {}
  lemma FormatVersionLineSingle() ensures SingleLine("webOS-Package-Format-Version: 2") {}
  lemma PackagerVersionLineSingle() ensures SingleLine("webOS-Packager-Version: x.y.x") {}

  lemma StartsWithConcat(a: string, b: string)
    ensures StartsWith(a + b, a)
  {
    assert (a + b)[..|a|] == a;
  }

  lemma NotStartsWith(s: string, p: string)
    requires |p| > 0 && |s| > 0 && s[0] != p[0]
    ensures !StartsWith(s, p)
  {
    if |p| <= |s| {
      assert s[..|p|][0] == s[0];
    }
  }

  lemma ControlFieldsOfLines(id: string, version: string, size: nat)
    ensures var ls := ControlLines(id, version, size) + [""];
      && ControlField(ls, "Package") == Some(id)
      && ControlField(ls, "Version") == Some(version)
      && ControlField(ls, "Installed-Size") == Some(Decimal(size))
  {
    var ls := ControlLines(id, version, size) + [""];
    var d := Decimal(size);
    StartsWithConcat("Package: ", id);
    assert ("Package: " + id)[9..] == id;
    NotStartsWith(ls[0], "Version: ");
    StartsWithConcat("Version: ", version);
    assert ("Version: " + version)[9..] == version;
    assert ControlField(ls, "Version") == ControlField(ls[1..], "Version");
    NotStartsWith(ls[0], "Installed-Size: ");
    NotStartsWith(ls[1], "Installed-Size: ");
    NotStartsWith(ls[2], "Installed-Size: ");
    NotStartsWith(ls[3], "Installed-Size: ");
    NotStartsWith(ls[4], "Installed-Size: ");
    StartsWithConcat("Installed-Size: ", d);
    assert ("Installed-Size: " + d)[16..] == d;
    assert ControlField(ls, "Installed-Size") == ControlField(ls[1..], "Installed-Size");
    assert ControlField(ls[1..], "Installed-Size") == ControlField(ls[2..], "Installed-Size");
    assert ControlField(ls[2..], "Installed-Size") == ControlField(ls[3..], "Installed-Size");
    assert ControlField(ls[3..], "Installed-Size") == ControlField(ls[4..], "Installed-Size");
    assert ControlField(ls[4..], "Installed-Size") == ControlField(ls[5..], "Installed-Size");
  }

  /* ---------------- gen_packageinfo ---------------- */

  /**
   * The opening of a member line, up to the value's opening quote. The five
   * keys are plain lower-case words, which json.dumps writes unescaped.
   */
  function MemberHead(key: string): string
  {
    "  \"" + key + "\": \""
  }

  /** One "  \"key\": \"value\"" member line of the indented JSON object. */
  function MemberLine(key: string, value: string, last: bool): string
  {
    MemberHead(key) + Escape(value) + "\"" + (if last then "" else ",")
  }

  /**
   * The lines of json.dumps(packageinfo, indent=2): the object's braces and
   * one member per mapped field, in the dictionary's insertion order.
   */
  function PackageInfoLines(id: string, title: string, vendor: string, version: string): seq<string>
  {
    [ "{",
      MemberLine("app", id, false),
      MemberLine("id", id, false),
      MemberLine("loc_name", title, false),
      MemberLine("vendor", vendor, false),
      MemberLine("version", version, true),
      "}" ]
  }

  /** The JSON document followed by the one newline gen_packageinfo appends. */
  function PackageInfoText(id: string, title: string, vendor: string, version: string): string
  {
    Terminated(PackageInfoLines(id, title, vendor, version))
  }

  /**
   * gen_packageinfo: the JSON document plus one newline, "\r\n" replaced,
   * UTF-8 encoded. The dictionary literal reads id, title, vendor and
   * version in that order. The document is ASCII and ends with "}\n".
   */
  function GenPackageInfo(appinfo: AppInfo): (r: Result<seq<byte>>)
    ensures r.Ok? <==> FirstMissing(appinfo, ["id", "title", "vendor", "version"]).None?
    ensures r.Err? ==> r.error == KeyError(FirstMissing(appinfo, ["id", "title", "vendor", "version"]).value)
    ensures r.Ok? ==>
      && |r.value| >= 2
      && (forall i :: 0 <= i < |r.value| ==> r.value[i] < 0x80)
      && r.value[|r.value| - 2..] == [0x7D, 0x0A]
  {
    match FirstMissing(appinfo, ["id", "title", "vendor", "version"])
    case Some(key) => Err(KeyError(key))
    case None =>
      var keys := ["id", "title", "vendor", "version"];
      assert keys[0] in appinfo && keys[1] in appinfo && keys[2] in appinfo && keys[3] in appinfo;
      var text := PackageInfoText(appinfo["id"], appinfo["title"], appinfo["vendor"], appinfo["version"]);
      PackageInfoAscii(appinfo["id"], appinfo["title"], appinfo["vendor"], appinfo["version"]);
      ReplaceCrlfWithoutCr(text);
      Utf8Ascii(text);
      Ok(Utf8(ReplaceCrlf(text)))
  }

  lemma AsciiConcat(a: string, b: string)
    requires IsAscii(a) && IsAscii(b)
    ensures IsAscii(a + b)
  {
    forall i | 0 <= i < |a + b| ensures (a + b)[i] as int < 0x80 {
      if i >= |a| {
        assert (a + b)[i] == b[i - |a|];
      }
    }
  }

  lemma MemberLineAscii(key: string, value: string, last: bool)
    requires IsAscii(key) && SingleLine(key)
    ensures IsAscii(MemberLine(key, value, last)) && SingleLine(MemberLine(key, value, last))
  {
    var e := Escape(value);
    var tail: string := if last then "" else ",";
    AsciiConcat("  \"", key);
    AsciiConcat("  \"" + key, "\": \"");
    AsciiConcat(MemberHead(key), e);
    AsciiConcat(MemberHead(key) + e, "\"");
    AsciiConcat(MemberHead(key) + e + "\"", tail);
    assert SingleLine(MemberHead(key));
    assert SingleLine(MemberHead(key) + e);
    assert SingleLine(MemberHead(key) + e + "\"" + tail);
  }

  lemma PackageInfoAscii(id: string, title: string, vendor: string, version: string)
    ensures var text := PackageInfoText(id, title, vendor, version);
      IsAscii(text) && '\r' !in text && |text| >= 2 && text[|text| - 2..] == "}\n"
  {
    var ls := PackageInfoLines(id, title, vendor, version);
    PackageInfoLinesPlain(id, title, vendor, version);
    TerminatedAscii(ls);
    TerminatedExcludes(ls, '\r');
    TerminatedEnd(ls);
  }

  /** Every line of the document is ASCII and holds no line break. */
  lemma PackageInfoLinesPlain(id: string, title: string, vendor: string, version: string)
    ensures var ls := PackageInfoLines(id, title, vendor, version);
      forall i :: 0 <= i < |ls| ==> IsAscii(ls[i]) && SingleLine(ls[i])
  {
    var ls := PackageInfoLines(id, title, vendor, version);
    MemberLineAscii("app", id, false);
    MemberLineAscii("id", id, false);
    MemberLineAscii("loc_name", title, false);
    MemberLineAscii("vendor", vendor, false);
    MemberLineAscii("version", version, true);
    assert ls[0] == "{" && ls[6] == "}";
    assert IsAscii("{") && SingleLine("{") && IsAscii("}") && SingleLine("}");
  }

  lemma PackageInfoKeysPresent(appinfo: AppInfo)
    requires "id" in appinfo && "title" in appinfo && "vendor" in appinfo && "version" in appinfo
    ensures FirstMissing(appinfo, ["id", "title", "vendor", "version"]).None?
  {
    var keys := ["id", "title", "vendor", "version"];
    assert forall i :: 0 <= i < |keys| ==> keys[i] in appinfo;
  }

  /** A package-info document exists exactly when the four fields it maps are present. */
  lemma PackageInfoNeedsKeys(appinfo: AppInfo)
    ensures GenPackageInfo(appinfo).Ok? <==>
      "id" in appinfo && "title" in appinfo && "vendor" in appinfo && "version" in appinfo
  {
    var keys := ["id", "title", "vendor", "version"];
    if GenPackageInfo(appinfo).Ok? {
      assert keys[0] in appinfo && keys[1] in appinfo && keys[2] in appinfo && keys[3] in appinfo;
    } else if "id" in appinfo && "title" in appinfo && "vendor" in appinfo && "version" in appinfo {
      PackageInfoKeysPresent(appinfo);
    }
  }

  /** The value of a member line for `key`, read back with the JSON string reader. */
  function MemberValue(line: string, key: string): Option<string>
  {
    var head := MemberHead(key);
    var body := if |line| > 0 && line[|line| - 1] == ',' then line[..|line| - 1] else line;
    if |head| < |body| && body[..|head|] == head && body[|body| - 1] == '"'
    then Unescape(body[|head|..|body| - 1])
    else None
  }

  lemma MemberLineReadBack(key: string, value: string, last: bool)
    ensures MemberValue(MemberLine(key, value, last), key) == Some(value)
  {
    EscapeRoundTrip(value);
    if last {
      LastMemberReadBack(key, value);
    } else {
      InnerMemberReadBack(key, value);
    }
  }

  lemma LastMemberReadBack(key: string, value: string)
    requires Unescape(Escape(value)) == Some(value)
    ensures MemberValue(MemberLine(key, value, true), key) == Some(value)
  {
    var head := MemberHead(key);
    var line := head + Escape(value) + "\"";
    assert MemberLine(key, value, true) == line;
    assert line[|line| - 1] == '"';
    assert line[..|head|] == head;
    assert line[|head|..|line| - 1] == Escape(value);
  }

  lemma InnerMemberReadBack(key: string, value: string)
    requires Unescape(Escape(value)) == Some(value)
    ensures MemberValue(MemberLine(key, value, false), key) == Some(value)
  {
    var head := MemberHead(key);
    var body := head + Escape(value) + "\"";
    var line := body + ",";
    assert MemberLine(key, value, false) == line;
    assert line[..|line| - 1] == body;
    assert line[|line| - 1] == ',';
    assert body[..|head|] == head;
    assert body[|head|..|body| - 1] == Escape(value);
  }

  /**
   * Reading back the package-info document: it decodes to the JSON text,
   * whose lines are the object's braces and one member per mapped field,
   * each of which reads back as the manifest's value.
   */
  lemma PackageInfoReadBack(appinfo: AppInfo)
    requires "id" in appinfo && "title" in appinfo && "vendor" in appinfo && "version" in appinfo
    ensures GenPackageInfo(appinfo).Ok?
    ensures
      var id, title, vendor, version := appinfo["id"], appinfo["title"], appinfo["vendor"], appinfo["version"];
      var text := PackageInfoText(id, title, vendor, version);
      var ls := Split(text, '\n');
      && Utf8Decode(GenPackageInfo(appinfo).value) == Some(text)
      && ls == PackageInfoLines(id, title, vendor, version) + [""]
      && MemberValue(ls[1], "app") == Some(id)
      && MemberValue(ls[2], "id") == Some(id)
      && MemberValue(ls[3], "loc_name") == Some(title)
      && MemberValue(ls[4], "vendor") == Some(vendor)
      && MemberValue(ls[5], "version") == Some(version)
  {
    var id, title, vendor, version := appinfo["id"], appinfo["title"], appinfo["vendor"], appinfo["version"];
    PackageInfoDecodes(appinfo);
    PackageInfoMembers(id, title, vendor, version);
  }

  lemma PackageInfoDecodes(appinfo: AppInfo)
    requires "id" in appinfo && "title" in appinfo && "vendor" in appinfo && "version" in appinfo
    ensures GenPackageInfo(appinfo).Ok?
    ensures
      var id, title, vendor, version := appinfo["id"], appinfo["title"], appinfo["vendor"], appinfo["version"];
      var text := PackageInfoText(id, title, vendor, version);
      && Utf8Decode(GenPackageInfo(appinfo).value) == Some(text)
      && Split(text, '\n') == PackageInfoLines(id, title, vendor, version) + [""]
  {
    var id, title, vendor, version := appinfo["id"], appinfo["title"], appinfo["vendor"], appinfo["version"];
    var text := PackageInfoText(id, title, vendor, version);
    PackageInfoKeysPresent(appinfo);
    PackageInfoAscii(id, title, vendor, version);
    ReplaceCrlfWithoutCr(text);
    Utf8RoundTrip(text);
    PackageInfoLinesPlain(id, title, vendor, version);
    SplitTerminated(PackageInfoLines(id, title, vendor, version));
  }

  lemma PackageInfoMembers(id: string, title: string, vendor: string, version: string)
    ensures var ls := PackageInfoLines(id, title, vendor, version);
      && MemberValue(ls[1], "app") == Some(id)
      && MemberValue(ls[2], "id") == Some(id)
      && MemberValue(ls[3], "loc_name") == Some(title)
      && MemberValue(ls[4], "vendor") == Some(vendor)
      && MemberValue(ls[5], "version") == Some(version)
  {
    var ls := PackageInfoLines(id, title, vendor, version);
    assert ls[1] == MemberLine("app", id, false) && ls[2] == MemberLine("id", id, false);
    assert ls[3] == MemberLine("loc_name", title, false) && ls[4] == MemberLine("vendor", vendor, false);
    assert ls[5] == MemberLine("version", version, true);
    MemberLineReadBack("app", id, false);
    MemberLineReadBack("id", id, false);
    MemberLineReadBack("loc_name", title, false);
    MemberLineReadBack("vendor", vendor, false);
    MemberLineReadBack("version", version, true);
  }
}
