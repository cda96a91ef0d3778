/**
 * The reply handling of the invoice extraction service: the generator's
 * text is trimmed, a surrounding code fence is cut off by dropping the
 * first and the last line, and the rest is handed to the JSON decoder;
 * a decode failure or a null document yields the empty record. Also the
 * file-extension to MIME-type mapping used when extracting from a file.
 *
 * The decoder and the text generator are parameters: JSON decoding and
 * the external model are outside this model. The generator answers
 * `None` where the model call throws.
 */
module InvoiceExtraction {
  import opened Common

  /** One extracted line item; every field may be missing. */
  datatype InvoiceItemInfo = InvoiceItemInfo(
    itemId: Option<string>,
    description: Option<string>,
    quantity: Option<Decimal>,
    unitPrice: Option<Decimal>,
    unit: Option<string>,
    amount: Option<Decimal>)

  /** One image's extraction result; every scalar may be missing. */
  datatype InvoiceExtractedInfo = InvoiceExtractedInfo(
    invoiceNumber: Option<string>,
    issuedDate: Option<DateTime>,
    vendorName: Option<string>,
    totalAmount: Option<Decimal>,
    items: seq<InvoiceItemInfo>)

  /** `new InvoiceExtractedInfo()`: all scalars null, no items. */
  const EmptyInfo: InvoiceExtractedInfo := InvoiceExtractedInfo(None, None, None, None, [])

  /** What the JSON decoder makes of a text: a record, a `null` document, or a `JsonException`. */
  datatype Decoded = Parsed(info: InvoiceExtractedInfo) | ParsedNull | JsonError

  const Fence: string := "```"

  /** `string.Split(sep)`: the pieces between separators; always at least one piece. */
  function Split(s: string, sep: char): (lines: seq<string>)
    ensures |lines| >= 1
    ensures forall i :: 0 <= i < |lines| ==> sep !in lines[i]
    decreases |s|
  {
    if |s| == 0 then [""]
    else if s[0] == sep then [""] + Split(s[1..], sep)
    else
      var rest := Split(s[1..], sep);
      [[s[0]] + rest[0]] + rest[1..]
  }

  /** `string.Join(sep, lines)`: the pieces with one separator between neighbours. */
  function Join(lines: seq<string>, sep: char): string
    decreases |lines|
  {
    if |lines| == 0 then ""
    else if |lines| == 1 then lines[0]
    else lines[0] + [sep] + Join(lines[1..], sep)
  }

  /** Splitting and joining again gives back the text. */
  lemma {:induction false} JoinSplit(s: string, sep: char)
    ensures Join(Split(s, sep), sep) == s
    decreases |s|
  {
    if |s| == 0 {
    } else if s[0] == sep {
      JoinSplit(s[1..], sep);
      var rest := Split(s[1..], sep);
      assert Split(s, sep) == [""] + rest;
      assert Join(Split(s, sep), sep) == "" + [sep] + Join(rest, sep);
    } else {
      JoinSplit(s[1..], sep);
      var rest := Split(s[1..], sep);
      if |rest| == 1 {
        assert Split(s, sep) == [[s[0]] + rest[0]];
      } else {
        assert Split(s, sep)[1..] == rest[1..];
        assert Join(rest, sep) == rest[0] + [sep] + Join(rest[1..], sep);
      }
    }
  }

  /** Joining pieces free of the separator and splitting again gives back the pieces. */
  lemma {:induction false} SplitJoin(lines: seq<string>, sep: char)
    requires |lines| >= 1
    requires forall i :: 0 <= i < |lines| ==> sep !in lines[i]
    ensures Split(Join(lines, sep), sep) == lines
    decreases |lines|, |lines[0]|
  {
    if |lines| == 1 {
      SplitWithoutSeparator(lines[0], sep);
    } else if |lines[0]| == 0 {
      SplitJoin(lines[1..], sep);
      assert Join(lines, sep) == [sep] + Join(lines[1..], sep);
      assert ([sep] + Join(lines[1..], sep))[1..] == Join(lines[1..], sep);
      assert lines == [""] + lines[1..];
    } else {
      var c := lines[0][0];
      var shorter := [lines[0][1..]] + lines[1..];
      assert sep !in shorter[0] by {
        assert forall x :: x in lines[0][1..] ==> x in lines[0];
      }
      SplitJoin(shorter, sep);
      assert Join(shorter, sep) == lines[0][1..] + [sep] + Join(lines[1..], sep);
      assert Join(lines, sep) == [c] + Join(shorter, sep);
      var joined := Join(lines, sep);
      assert joined[1..] == Join(shorter, sep);
      assert c != sep by {
        assert c in lines[0];
      }
      assert joined[0] == c;
      assert Split(joined, sep) == [[c] + shorter[0]] + shorter[1..];
      assert [c] + lines[0][1..] == lines[0];
      assert [[c] + lines[0][1..]] + lines[1..] == lines;
    }
  }

  /** The first piece of a text ends at its first separator. */
  lemma {:induction false} SplitAtFirst(a: string, b: string, sep: char)
    requires sep !in a
    ensures Split(a + [sep] + b, sep) == [a] + Split(b, sep)
    decreases |a|
  {
    var s := a + [sep] + b;
    if |a| == 0 {
      assert s[1..] == b;
    } else {
      assert sep !in a[1..] by {
        assert forall x :: x in a[1..] ==> x in a;
      }
      SplitAtFirst(a[1..], b, sep);
      assert s[1..] == a[1..] + [sep] + b;
      assert s[0] == a[0] && a[0] != sep;
      assert [a[0]] + a[1..] == a;
    }
  }

  /** A text without the separator is one piece. */
  lemma {:induction false} SplitWithoutSeparator(s: string, sep: char)
    requires sep !in s
    ensures Split(s, sep) == [s]
    decreases |s|
  {
    if |s| > 0 {
      assert sep !in s[1..] by {
        assert forall x :: x in s[1..] ==> x in s;
      }
      SplitWithoutSeparator(s[1..], sep);
      assert s[0] != sep;
      assert Split(s, sep) == [[s[0]] + s[1..]];
      assert [s[0]] + s[1..] == s;
    }
  }

  /** `lines.Skip(1).Take(lines.Length - 2)`: all but the first and the last line. */
  function InnerLines(lines: seq<string>): (r: seq<string>)
    ensures |lines| >= 2 ==> |r| == |lines| - 2
    ensures |lines| < 2 ==> r == []
    ensures forall i :: 0 <= i < |r| ==> r[i] == lines[i + 1]
  {
    if |lines| < 2 then [] else lines[1..|lines| - 1]
  }

  /**
   * The text handed to the decoder: the trimmed reply, and if it starts
   * with a code fence, its lines without the first and the last.
   */
  function CleanResponse(response: string): (r: string)
    ensures !StartsWith(Trim(response), Fence) ==> r == Trim(response)
    ensures StartsWith(Trim(response), Fence) ==>
      r == Join(InnerLines(Split(Trim(response), '\n')), '\n')
  {
    var trimmed := Trim(response);
    if StartsWith(trimmed, Fence) then Join(InnerLines(Split(trimmed, '\n')), '\n') else trimmed
  }

  /**
   * A fenced reply loses exactly its first and last line: the cleaned text
   * splits into the inner lines again whenever there are any, and is
   * empty when the reply has fewer than three lines.
   */
  lemma FenceDropsOuterLines(response: string)
    requires StartsWith(Trim(response), Fence)
    ensures var lines := Split(Trim(response), '\n');
      && (|lines| >= 3 ==> Split(CleanResponse(response), '\n') == lines[1..|lines| - 1])
      && (|lines| <= 2 ==> CleanResponse(response) == "")
  {
    var lines := Split(Trim(response), '\n');
    var inner := InnerLines(lines);
    assert CleanResponse(response) == Join(inner, '\n');
    if |lines| >= 3 {
      assert inner == lines[1..|lines| - 1];
      assert forall i :: 0 <= i < |inner| ==> '\n' !in inner[i] by {
        forall i | 0 <= i < |inner|
          ensures '\n' !in inner[i]
        {
          assert inner[i] == lines[i + 1];
        }
      }
      SplitJoin(inner, '\n');
    } else {
      assert inner == [];
    }
  }

  /** `ParseResponse`: the decoded record, or the empty record on a decode failure or a null document. */
  function ParseResponse(response: string, decode: string -> Decoded): (r: InvoiceExtractedInfo)
    ensures decode(CleanResponse(response)).Parsed? ==> r == decode(CleanResponse(response)).info
    ensures !decode(CleanResponse(response)).Parsed? ==> r == EmptyInfo
  {
    match decode(CleanResponse(response))
    case Parsed(info) => info
    case _ => EmptyInfo
  }

  /**
   * Only the trimmed reply matters: padding it with white space on either
   * side decodes to the same record as the reply itself.
   */
  lemma ParseIgnoresPadding(response: string, before: string, after: string, decode: string -> Decoded)
    requires AllWhiteSpace(before) && AllWhiteSpace(after)
    ensures ParseResponse(before + Trim(response) + after, decode) == ParseResponse(response, decode)
  {
    TrimDropsPadding(before, Trim(response), after);
  }

  /**
   * `ExtractFromImageAsync`: the generator's text for the image, parsed;
   * the prompt is fixed. The generator answers `None` where the model call
   * throws (a failed request, an empty candidate list); nothing catches
   * that, so the extraction fails with it.
   */
  function ExtractFromImage(
    generate: (seq<Byte>, string) -> Option<string>, decode: string -> Decoded,
    imageBytes: seq<Byte>, mimeType: string): (r: Option<InvoiceExtractedInfo>)
    ensures r.None? <==> generate(imageBytes, mimeType).None?
    ensures r.Some? ==> r.value == ParseResponse(generate(imageBytes, mimeType).value, decode)
  {
    match generate(imageBytes, mimeType)
    case None => None
    case Some(text) => Some(ParseResponse(text, decode))
  }

  /** `GetMimeType`, given the file's extension: JPEG and PNG by extension, case-insensitively. */
  function GetMimeType(extension: string): (r: string)
    ensures r in {"image/jpeg", "image/png", "application/octet-stream"}
    ensures r == "image/jpeg" <==> Lower(extension) in {".jpg", ".jpeg"}
    ensures r == "image/png" <==> Lower(extension) == ".png"
  {
    var e := Lower(extension);
    if e == ".jpg" || e == ".jpeg" then "image/jpeg"
    else if e == ".png" then "image/png"
    else "application/octet-stream"
  }

  /** The mapping does not see letter case. */
  lemma MimeTypeIgnoresCase(extension: string)
    ensures GetMimeType(extension) == GetMimeType(Lower(extension))
  {
    LowerIdempotent(extension);
  }

  /** `ExtractFromFilePathAsync`: the file's bytes extracted under the MIME type of its extension. */
  function ExtractFromFilePath(
    generate: (seq<Byte>, string) -> Option<string>, decode: string -> Decoded,
    extension: string, fileBytes: seq<Byte>): (r: Option<InvoiceExtractedInfo>)
    ensures r.None? <==> generate(fileBytes, GetMimeType(extension)).None?
    ensures r.Some? ==> r.value == ParseResponse(generate(fileBytes, GetMimeType(extension)).value, decode)
  {
    ExtractFromImage(generate, decode, fileBytes, GetMimeType(extension))
  }

  /** A fenced document loses its fence lines. */
  lemma FencedReplyExample(fenced: string)
    requires fenced == "```json\n{}\n```"
    ensures CleanResponse(fenced) == "{}"
  {
    assert Trim(fenced) == fenced by {
      assert TrimStart(fenced) == fenced;
      assert TrimEnd(fenced) == fenced;
    }
    assert StartsWith(fenced, Fence) by {
      assert fenced[..3] == Fence;
    }
    var lines := Split(fenced, '\n');
    assert lines == ["```json", "{}", "```"] by {
      assert fenced == "```json" + ['\n'] + ("{}" + ['\n'] + "```");
      SplitAtFirst("```json", "{}" + ['\n'] + "```", '\n');
      SplitAtFirst("{}", "```", '\n');
      SplitWithoutSeparator("```", '\n');
    }
    assert InnerLines(lines) == ["{}"];
  }

  /** A fence on a single line leaves nothing to decode. */
  lemma BareFenceExample()
    ensures CleanResponse("```") == ""
  {
    assert TrimStart("```") == "```";
    assert TrimEnd("```") == "```";
    SplitWithoutSeparator("```", '\n');
  }

}
