# Grant Finder: search filter and proposal form

This project models the logic of the Grant Finder page (`app.py.py`). The model has three parts:

- the grant search `search_grants`. It keeps, in their original order, the grants whose lower-cased title, summary or source contains the lower-cased query. A missing summary or source reads as the empty string.
- the page's rule for an empty search box. An empty query shows every grant; any other query shows the search result.
- the proposal generator form. It refuses the submission when the name, the project description or the budget is empty. Otherwise it produces a fixed two-paragraph text with the three values spliced in.

All of this is pure code in the source, so the model uses datatypes, functions and lemmas. The modules are:

- `Wrappers`: `Option` and `Result`.
- `AsciiText`: lower/upper-casing and Python's substring test `q in s`, with a proof that the recursive definition agrees with the positional one.
- `GrantSearch`: the grant record, the match condition, `SearchGrants` and `ShownGrants`.
- `ProposalForm`: the form check and the proposal template.

## Model

| member | source | states |
|---|---|---|
| `GrantSearch.Matches` | app.py.py:21-23 | the filter condition: it holds iff the lower-cased query occurs at some position of the lower-cased title, summary or source (the positional form of the three `in` tests) |
| `GrantSearch.Grant.SummaryText` | app.py.py:22 | `g.get('summary', '')`: the summary when present, the empty string when the key is missing |
| `GrantSearch.Grant.SourceText` | app.py.py:23 | `g.get('source', '')`: the source when present, the empty string when the key is missing |
| `AsciiText.Lower` | app.py.py:18-23 | `.lower()`: the result has the input's length and each character is the `LowerChar` of the input's character at that position |
| `AsciiText.Contains` | app.py.py:21-23 | `q in s`: a contained string is never longer than the text, and one of equal length is the text itself; `ContainsIffOccurs` gives its full characterisation |
| `GrantSearch.SearchGrants` | app.py.py:16-24 | every returned grant is an input grant that matches; every matching input grant is returned; each grant keeps its input multiplicity if it matches and is dropped otherwise; the result is a subsequence of the input (order kept, no duplication), so it is no longer than the input |
| `GrantSearch.SearchIdempotent` | app.py.py:16-24 | filtering the result again with the same query returns it unchanged |
| `GrantSearch.SearchKeepsAllMatching` | app.py.py:19-24 | a list whose every grant matches passes the filter unchanged |
| `GrantSearch.SearchDependsOnLowerQuery` | app.py.py:18 | two queries with the same lower-cased form give the same result |
| `GrantSearch.SearchCaseInsensitive` | app.py.py:18-23 | searching for the lower-cased or the upper-cased query gives the same result as the query itself |
| `GrantSearch.ExactCaseHitIsFound` | app.py.py:18-23 | an input grant whose title, summary or source contains the query with its exact case is in the result |
| `GrantSearch.MissingFieldsReadAsEmpty` | app.py.py:22-23 | a missing summary or source matches exactly like an empty one; a grant with neither matches iff its lower-cased title contains the lower-cased query |
| `GrantSearch.EmptyQueryMatches` | app.py.py:18-21 | every grant matches the empty query |
| `GrantSearch.SearchEmptyQuery` | app.py.py:16-24 | searching for the empty string returns every grant, in order |
| `GrantSearch.ShownGrants` | app.py.py:54 | a grant is shown iff it is loaded and matches the query, for the empty query too |
| `GrantSearch.ShownIsSearch` | app.py.py:54 | the empty-query bypass shows exactly the search result for every query |
| `AsciiText.ContainsIffOccurs` | app.py.py:21-23 | the substring test holds iff the query occurs in the text at some position (both directions) |
| `AsciiText.ContainedInEmpty` | app.py.py:22-23 | only the empty query is contained in the empty string, the value of a missing summary or source |
| `AsciiText.ContainsLower` | app.py.py:18-23 | an occurrence in the original case is still an occurrence after lower-casing both sides |
| `AsciiText.LowerIdempotent` | app.py.py:18 | lower-casing twice equals lower-casing once |
| `AsciiText.LowerOfUpper` | app.py.py:18 | upper-casing first does not change the lower-cased form |
| `AsciiText.LowerChar` | app.py.py:18 | the result is never an upper-case letter; an upper-case letter maps to its lower-case partner; every other character is unchanged |
| `ProposalForm.SubmitProposal` | app.py.py:66-73 | a proposal is produced iff name, project and budget are all non-empty; otherwise the error is `MissingFields`; the produced text is the proposal template for those values |
| `ProposalForm.ProposalText` | app.py.py:70-73 | the text starts with the fixed lead-in, holds the name, the project and the budget verbatim in that order after their fixed lead-ins, and ends with the fixed closing sentence |
| `ProposalForm.ProposalDeterminesFields` | app.py.py:70-73 | once the lengths of name and project are fixed, the text determines all three values |

## Left out

- Case mapping covers ASCII letters only. Python's `str.lower` follows Unicode and can change a string's length (for example `'İ'.lower()`); that is not modelled.
- GrantSearch.SearchCaseInsensitive: the upper-cased half holds only under ASCII case mapping. In Python `'ß'.upper() == 'SS'`, so searching a title `Straße` for `'ß'` finds the grant while searching for `'ß'.upper()` does not; the model cannot show this.
- A grant without a `title` key makes `g['title']` raise `KeyError` in the source. In the model every `Grant` has a title, so that error path does not exist.
- A CSV cell that pandas reads as a missing value (a float NaN) would make `.lower()` raise. The model types every present field as a string.
- `load_grants` (app.py.py:11-14): CSV reading through pandas and Streamlit's cache are I/O. The grant list is a parameter of the model.
- `display_grants`, the page setup and the contact form (app.py.py:8-9, 26-35, 85-93): Streamlit rendering with no logic.
- `generate_proposal_pdf` (app.py.py:37-47) and the base64 download link (app.py.py:76-82): calls into FPDF, BytesIO and base64, whose byte output is not visible. The `st.error` message text (app.py.py:67) is reduced to the `MissingFields` error.
- `app.py`: a fixed two-element sample list rendered with Streamlit, with no logic.
- No scrape-and-cache fetcher appears in `app.py.py` or `app.py`; it is not modelled.
- The form fields come from Streamlit text inputs, so they are always strings. Python's falsiness test `not name` is modelled as "is the empty string"; a field holding only spaces counts as filled in, as in the source.
