# Healthcare Assistant: a verified model of its core logic

This project models the self-contained logic of a healthcare-assistant web application in Dafny:

- the Python pipeline that turns an uploaded medical document into a structured record: it routes the file by type, reads the PDF text layer and falls back to OCR, rebuilds line layout from word data, extracts JSON from the chat model's reply and repairs it;
- the medications text codec;
- the front-end form validators and health-metric status bands;
- password strength in its backend and frontend variants;
- phone, e-mail and date helpers;
- the pagination middleware and the two page-button windows;
- filtering and sorting of the medical history;
- the forum rules: comment tree and count, depth and thread path, likes, tags, the UPDATE and COUNT builders, argument checks;
- the user model and its profile controller;
- the chat-request middlewares, the chat message mapping and the appointment access rule.

Each source file of the core is one module. Pure code is modelled as functions, and code that changes state step by step as methods with loops or classes. `Wrappers`, `Strings`, `Seqs`, `Json` and `Express` are shared helpers: Option/Result, JavaScript string operations (trim, split, join, search), filtering and sorting, JavaScript and Python values with their truthiness, and the ways a middleware can end.

Foreign calls are parameters of the functions that use them:

- the chat model;
- JSON parsing and serialisation;
- OCR;
- Date and the clock;
- `parseInt` and `parseFloat`;
- bcrypt's compare;
- uuid.

## Model

| member | source | states |
|---|---|---|
| `ProcessMedicalRecord.JsonFenceCandidate` | BackEnd/config/chatbot/processMedicalRecord.py:101-102 | with a "```json" fence and a later "```", the candidate exists, is the stripped text between the first "```json" and the next "```", and holds no "```" |
| `ProcessMedicalRecord.FencePairCandidate` | BackEnd/config/chatbot/processMedicalRecord.py:103-104 | otherwise, with two "```" fences, the candidate is the stripped text between the first two (a language word after the opening fence stays in it) and holds no fence |
| `ProcessMedicalRecord.FencedText` | BackEnd/config/chatbot/processMedicalRecord.py:101-104 | the fenced extraction picks the text between the first opening fence and the next "```", stripped, and the result never contains "```" |
| `ProcessMedicalRecord.BraceCandidate` | BackEnd/config/chatbot/processMedicalRecord.py:105-111 | without fences, a candidate exists iff some '{' comes before some '}'; it is then the inclusive span from the first '{' to the last '}', starting with '{' and ending with '}' |
| `ProcessMedicalRecord.ExtractCandidate` | BackEnd/config/chatbot/processMedicalRecord.py:101-111 | a reply with a "```json" fence or a fence pair always yields a candidate; no candidate means no '{' comes before a '}' |
| `ProcessMedicalRecord.FillMissing` | BackEnd/config/chatbot/processMedicalRecord.py:126-128 | the keys afterwards are the dict's keys plus the required ones; existing values are untouched and every added key holds "" |
| `ProcessMedicalRecord.RepairKeys` | BackEnd/config/chatbot/processMedicalRecord.py:123-136 | after the repair pass the keys are exactly the model's keys (extra keys included) plus the nine required fields |
| `ProcessMedicalRecord.RepairKeepsOtherFields` | BackEnd/config/chatbot/processMedicalRecord.py:126-141 | every key other than medications and record_type keeps the model's value, and a required field the model left out is "" |
| `ProcessMedicalRecord.RepairMedications` | BackEnd/config/chatbot/processMedicalRecord.py:130-131 | medications becomes its JSON text only when it is a non-empty list; an empty list or a non-list stays as given, and a missing one is "" |
| `ProcessMedicalRecord.RepairRecordType` | BackEnd/config/chatbot/processMedicalRecord.py:128-136 | record_type always ends as one of checkup, hospitalization, surgery, other: the model's value when it was one of them, "other" otherwise (the "" default included) |
| `ProcessMedicalRecord.RepairInPlace` | BackEnd/config/chatbot/processMedicalRecord.py:126-136 | the loop and the two in-place updates of record_data produce exactly the repaired dict |
| `ProcessMedicalRecord.Repair` | BackEnd/config/chatbot/processMedicalRecord.py:123-141 | after repair every required field is present and record_type is one of the valid record types |
| `ProcessMedicalRecord.OutcomeEnvelopes` | BackEnd/config/chatbot/processMedicalRecord.py:94-153 | every success carries all required fields and a valid record_type. The result is a success iff the reply holds a non-empty candidate that parses as an object. A failure carries raw_response only for a missing candidate or a decode error, and then it is the stripped reply; a failure without it carries the chatbot-error prefix "Lỗi xử lý chatbot: " |
| `ProcessMedicalRecord.ChatbotOutcome` | BackEnd/config/chatbot/processMedicalRecord.py:94-153 | a failed chat call gives the prefixed error and no data; a missing or empty candidate gives the no-JSON failure with the stripped reply; a candidate json.loads rejects gives the decode failure with the stripped reply; a parsed dict gives success with its repair; any other parsed value gives the prefixed error built from it and no data |
| `ProcessMedicalRecord.ProcessWithChatbot` | BackEnd/config/chatbot/processMedicalRecord.py:38-153 | the method returns the envelope its chat outcome determines (ChatbotOutcome): chat exception, no candidate, decode error, non-dict value, or the repaired dict, with the repair done in place |
| `ProcessMedicalRecord.ProcessMedicalRecord` | BackEnd/config/chatbot/processMedicalRecord.py:6-36 | an extraction error gives "Lỗi xử lý: …"; a text shorter than 10 characters after strip gives the insufficient-text failure whatever the chat model would answer; otherwise the chatbot stage decides |
| `HandleMedicalHistory.EnhancementChains` | BackEnd/config/chatbot/handleMedicalHistory.py:60-74 | processed mode prepares (grayscale, Otsu, opening) then applies contrast 2.0, sharpness 2.0, brightness 1.2 on PDF pages, and those three followed by colour 1.5 on images; any other mode applies no step |
| `HandleMedicalHistory.LastSep` | BackEnd/config/chatbot/handleMedicalHistory.py:203 | the index found is a '\\' or '/' with no separator after it, or -1 when there is none |
| `HandleMedicalHistory.SplitExtParts` | BackEnd/config/chatbot/handleMedicalHistory.py:203 | splitext cuts the path in two; a non-empty extension is one '.' followed by neither '.' nor a separator, and the root's last component has a character other than '.' |
| `HandleMedicalHistory.CutParts` | BackEnd/config/chatbot/handleMedicalHistory.py:203 | a cut at the last '.' after the last separator gives a root and an extension of the splitext shape |
| `HandleMedicalHistory.RouteOf` | BackEnd/config/chatbot/handleMedicalHistory.py:202-213 | exactly the eight extensions .txt, .docx, .pdf, .png, .jpg, .jpeg, .bmp, .tiff get a route; every other one is refused, and a routed extension starts with a dot and has at least four characters |
| `HandleMedicalHistory.ExtractText` | BackEnd/config/chatbot/handleMedicalHistory.py:202-213 | each lower-cased extension reaches its extractor; the mode reaches only the image extractor, PDFs always run in "processed" mode, and an unknown extension is the ValueError message |
| `HandleMedicalHistory.ExtractDocx` | BackEnd/config/chatbot/handleMedicalHistory.py:15-20 | the .docx text is the paragraphs, in order, joined by "\n" |
| `HandleMedicalHistory.DocxLines` | BackEnd/config/chatbot/handleMedicalHistory.py:15-20 | for paragraphs without line breaks, splitting the text on "\n" gives the paragraphs back (empty ones as empty lines) and there are #paragraphs − 1 separators |
| `HandleMedicalHistory.TextLayerPass` | BackEnd/config/chatbot/handleMedicalHistory.py:33-38 | the loop appends, page by page, the page text plus "\n", or "\n" alone for a page without text |
| `HandleMedicalHistory.TextLayerIsJoin` | BackEnd/config/chatbot/handleMedicalHistory.py:33-38 | the text layer of a non-empty document is the page texts (missing ones as "") joined by "\n" with one more "\n" at the end |
| `HandleMedicalHistory.TextLayerSnoc` | BackEnd/config/chatbot/handleMedicalHistory.py:36-38 | one more page adds its text and "\n" after the others and one more page text to the list |
| `HandleMedicalHistory.PageTexts` | BackEnd/config/chatbot/handleMedicalHistory.py:37 | one text per page, in page order, a page without text counting as "" |
| `HandleMedicalHistory.PdfText` | BackEnd/config/chatbot/handleMedicalHistory.py:41-88 | the OCR fallback over every page is taken iff the stripped text layer is shorter than 100 characters; otherwise the text layer is returned unchanged |
| `HandleMedicalHistory.ExtractPdf` | BackEnd/config/chatbot/handleMedicalHistory.py:22-88 | the returned text is the text layer, or the OCR text of all pages prepared with the PDF steps of the mode when the layer is too short |
| `HandleMedicalHistory.OcrPass` | BackEnd/config/chatbot/handleMedicalHistory.py:48-86 | the loop's result is every page's OCR string, in page order, each followed by "\n\n" |
| `HandleMedicalHistory.OcrPages` | BackEnd/config/chatbot/handleMedicalHistory.py:51-80 | one OCR string per page, in page order, each page prepared with the same steps |
| `HandleMedicalHistory.OcrTextIsJoin` | BackEnd/config/chatbot/handleMedicalHistory.py:81-86 | the OCR result of non-empty page strings is them joined by "\n\n" with a final "\n\n", with no further quality gate |
| `HandleMedicalHistory.OcrText` | BackEnd/config/chatbot/handleMedicalHistory.py:81-86 | the OCR text has at least two characters per page, and for at least one page it ends with "\n\n" |
| `HandleMedicalHistory.LineNumsNonEmpty` | BackEnd/config/chatbot/handleMedicalHistory.py:183-189 | a line number gets an entry in the dict iff some word on it survives strip() |
| `HandleMedicalHistory.SortedSetSpec` | BackEnd/config/chatbot/handleMedicalHistory.py:193 | sorted(lines.keys()) lists every key once, in strictly ascending order |
| `HandleMedicalHistory.SortedSetMin` | BackEnd/config/chatbot/handleMedicalHistory.py:193 | the sorted keys start with the least key |
| `HandleMedicalHistory.Layout` | BackEnd/config/chatbot/handleMedicalHistory.py:183-194 | the layout has one line per line number that carries words, in strictly ascending order, each its kept words in original order joined by " " |
| `HandleMedicalHistory.ImageText` | BackEnd/config/chatbot/handleMedicalHistory.py:176-200 | outside processed mode, or when no word survives strip(), the raw image_to_string text is kept |
| `HandleMedicalHistory.GroupStep` | BackEnd/config/chatbot/handleMedicalHistory.py:184-189 | one pass of the word loop keeps the dict equal to the grouping of the words seen so far |
| `HandleMedicalHistory.AddWord` | BackEnd/config/chatbot/handleMedicalHistory.py:185-189 | a blank word leaves the dict unchanged; a kept word is appended to its line's list, created empty when missing |
| `HandleMedicalHistory.GroupLines` | BackEnd/config/chatbot/handleMedicalHistory.py:183-189 | the dict built by the loop maps each line number carrying kept words to those words in original order, and has no other key |
| `HandleMedicalHistory.FormatLines` | BackEnd/config/chatbot/handleMedicalHistory.py:192-194 | the formatting loop emits, for each key in ascending order, its words joined by " " |
| `HandleMedicalHistory.ExtractImage` | BackEnd/config/chatbot/handleMedicalHistory.py:120-200 | the result is the raw OCR string of the prepared image, replaced in processed mode by the layout lines joined by "\n" when there is at least one |
| `Medications.MedicationValue` | FrontEnd/src/utils/medicationUtils.ts:30-35 | a medication object has exactly the keys name, dosage, instructions, duration, and each key holds that field of the medication as a string |
| `Medications.CreateEmptyMedication` | FrontEnd/src/utils/medicationUtils.ts:57-62 | all four fields of the new medication are '' |
| `Medications.BlankIffTrimEmpty` | FrontEnd/src/utils/medicationUtils.ts:27 | a line counts as blank exactly when its trim() is '' |
| `Medications.NonBlank` | FrontEnd/src/utils/medicationUtils.ts:27 | the filter keeps only non-blank lines and never adds any |
| `Medications.ParseLegacy` | FrontEnd/src/utils/medicationUtils.ts:26-36 | the legacy reading yields one medication per non-blank line |
| `Medications.ParseMedications` | FrontEnd/src/utils/medicationUtils.ts:11-37 | a missing or whitespace-only text parses to []; text that JSON.parse reads as an array is that array |
| `Medications.NonArrayIsLegacy` | FrontEnd/src/utils/medicationUtils.ts:16-27 | non-array JSON and text JSON.parse rejects both fall through to the legacy reading |
| `Medications.StringifyMedications` | FrontEnd/src/utils/medicationUtils.ts:44-51 | a missing or empty list is stored as ''; any other list as its JSON text |
| `Medications.NonBlankConcat` | FrontEnd/src/utils/medicationUtils.ts:27 | filtering the lines of a concatenation gives the kept lines of each half, in order |
| `Medications.NonBlankKeepsAll` | FrontEnd/src/utils/medicationUtils.ts:27 | when no line is blank, every line is kept in order |
| `Medications.LegacyLines` | FrontEnd/src/utils/medicationUtils.ts:27-36 | text made of lines gives exactly one medication per non-blank line, in line order |
| `Medications.RowFields` | FrontEnd/src/utils/medicationUtils.ts:29-35 | a line takes its first four trimmed '|' parts as name, dosage, instructions, duration; missing parts are '' and extra ones are ignored |
| `Medications.ParseRow` | FrontEnd/src/utils/medicationUtils.ts:29-35 | every field read from a line is trimmed; a line without '|' is a medication whose name is the trimmed line and whose other fields are empty |
| `Medications.RowRoundTrip` | FrontEnd/src/utils/medicationUtils.ts:29-35 | a line written from four trimmed, '|'-free fields reads back as the same medication |
| `Medications.EmptyRoundTrip` | FrontEnd/src/utils/medicationUtils.ts:12-14 | storing [] gives '', which reads back as [] |
| `Medications.ListRoundTrip` | FrontEnd/src/utils/medicationUtils.ts:16-21 | a non-empty list stored as JSON reads back as the same list, given that JSON.parse inverts JSON.stringify on it |
| `HistoryTable.ButtonsFor` | FrontEnd/src/pages/HealthTracking/components/HistoryTable.tsx:133-143 | one button per page of the window, none for an empty window |
| `HistoryTable.SmallWindowShowsAll` | FrontEnd/src/pages/HealthTracking/components/HistoryTable.tsx:115-118 | with at most five pages the buttons are exactly pages 1..totalPages |
| `HistoryTable.LargeWindow` | FrontEnd/src/pages/HealthTracking/components/HistoryTable.tsx:119-131 | with more than five pages the window is five consecutive pages inside 1..totalPages: 1..5 when current ≤ 3, the last five when current + 2 ≥ totalPages, current−2..current+2 otherwise |
| `HistoryTable.WindowContainsCurrent` | FrontEnd/src/pages/HealthTracking/components/HistoryTable.tsx:108-131 | for a valid current page the window lies inside 1..totalPages and contains it |
| `HistoryTable.OneActiveButton` | FrontEnd/src/pages/HealthTracking/components/HistoryTable.tsx:133-143 | for a valid current page exactly one button is active, the current page's |
| `HistoryTable.RenderPaginationButtons` | FrontEnd/src/pages/HealthTracking/components/HistoryTable.tsx:108-146 | the loop emits the window's pages in ascending order, consecutive, one per page, and marks active exactly the current page |
| `HistoryTable.PrevNextInRange` | FrontEnd/src/pages/HealthTracking/components/HistoryTable.tsx:84-100 | from a valid page, Prev targets max(page−1, 1) and Next min(page+1, totalPages): both stay in range, move by at most one, and stay put exactly where their button is disabled |
| `HistoryTable.Render` | FrontEnd/src/pages/HealthTracking/components/HistoryTable.tsx:24-102 | an empty list renders the no-records notice; otherwise one row per record, and the bar (Prev, the window, Next) only when totalPages > 1 |
| `MedicalHistoryPage.TypeIndex` | FrontEnd/src/pages/MedicalHistory/index.tsx:175-177 | the rank is −1 or the position in the type order of the record's type, a missing or empty type counting as 'other' |
| `MedicalHistoryPage.MatchesQuery` | FrontEnd/src/pages/MedicalHistory/index.tsx:158-166 | a record matches a query only if one of its diagnosis, symptoms, doctor or hospital fields is filled; for the empty query it matches exactly when one of them is filled |
| `MedicalHistoryPage.FilteredAndSorted` | FrontEnd/src/pages/MedicalHistory/index.tsx:150-180 | the list shown is a permutation of the records the tab and search keep, sorted by the chosen key and order |
| `MedicalHistoryPage.ShownIff` | FrontEnd/src/pages/MedicalHistory/index.tsx:150-169 | a record is shown iff it is one of the records, its record_type is the active tab (or the tab is 'all') and, for a query that is not blank after trim, the lower-cased untrimmed query occurs in its lower-cased diagnosis, symptoms, doctor_name or hospital |
| `MedicalHistoryPage.OutputStable` | FrontEnd/src/pages/MedicalHistory/index.tsx:170-180 | records with the same sort key appear in the output in the order they have among the shown (filtered) records, as the stable Array.prototype.sort leaves them |
| `MedicalHistoryPage.OutputSorted` | FrontEnd/src/pages/MedicalHistory/index.tsx:170-180 | the shown records are in the order of the comparator: by date or by type rank, ascending or, for 'desc', descending |
| `MedicalHistoryPage.AllTabIsPermutation` | FrontEnd/src/pages/MedicalHistory/index.tsx:150-180 | under the 'all' tab with a blank query the page shows a permutation of all records |
| `MedicalHistoryPage.SearchIgnoresTreatmentsAndNotes` | FrontEnd/src/pages/MedicalHistory/index.tsx:158-166 | changing a record's treatments or notes never changes whether it is shown |
| `MedicalHistoryPage.TypeRanks` | FrontEnd/src/pages/MedicalHistory/index.tsx:175-178 | checkup < hospitalization < surgery < other; a missing or empty type ranks as 'other' and any unlisted type gets −1 |
| `MedicalHistoryPage.TabCountIsShownCount` | FrontEnd/src/pages/MedicalHistory/index.tsx:182-185 | getTabCount('all') is records.length and any other tab counts the records of exactly that type: in both cases the number the page shows under that tab with a blank search |
| `MedicalHistoryPage.PageSlots` | FrontEnd/src/pages/MedicalHistory/index.tsx:373-384 | the bar has min(5, totalPages) slots |
| `MedicalHistoryPage.PageSlotsWindow` | FrontEnd/src/pages/MedicalHistory/index.tsx:373-384 | for a valid page, the first slot is page max(1, page−2); slot i is page start+i when that is at most totalPages and empty otherwise; so the slots are consecutive pages within 1..totalPages, and the current page is among them |
| `HealthTrackingUtils.ValidateHealthForm` | FrontEnd/src/pages/HealthTracking/healthTrackingUtils.ts:46-53 | the form is refused, with the one message, iff all eight measurement fields are empty, so exercise_data alone does not make it acceptable; otherwise the result is '' |
| `HealthTrackingUtils.PrepareHealthData` | FrontEnd/src/pages/HealthTracking/healthTrackingUtils.ts:56-69 | the nine conditional assignments, starting from {}, build exactly the record with one converted entry per non-empty field |
| `HealthTrackingUtils.SetIfFilled` | FrontEnd/src/pages/HealthTracking/healthTrackingUtils.ts:58-66 | one line of prepareHealthData: an empty field leaves the record as it was, a non-empty one sets its key to the converted value |
| `HealthTrackingUtils.PreparedByAssignments` | FrontEnd/src/pages/HealthTracking/healthTrackingUtils.ts:57-68 | the assignments in source order (weight … exercise_data) give the record defined key by key, whatever the fields hold |
| `HealthTrackingUtils.PreparedStep` | FrontEnd/src/pages/HealthTracking/healthTrackingUtils.ts:58-66 | each assignment of the sequence adds just its own key, and only when its field is non-empty |
| `HealthTrackingUtils.PreparedFirstThree` | FrontEnd/src/pages/HealthTracking/healthTrackingUtils.ts:58-60 | the weight, height and blood_pressure lines together set exactly those of the three that are filled |
| `HealthTrackingUtils.PreparedNextThree` | FrontEnd/src/pages/HealthTracking/healthTrackingUtils.ts:61-63 | the heart_rate, blood_sugar and temperature lines add exactly those of the three that are filled |
| `HealthTrackingUtils.PreparedLastThree` | FrontEnd/src/pages/HealthTracking/healthTrackingUtils.ts:64-66 | the sleep_duration, calories_burned and exercise_data lines add exactly those of the three that are filled |
| `HealthTrackingUtils.PreparedComplete` | FrontEnd/src/pages/HealthTracking/healthTrackingUtils.ts:56-69 | after all nine lines every key has had its turn |
| `HealthTrackingUtils.PreparedEntries` | FrontEnd/src/pages/HealthTracking/healthTrackingUtils.ts:58-66 | the record has a key exactly for each non-empty field; blood_pressure and exercise_data are copied verbatim, the others are parsed numbers |
| `HealthTrackingUtils.ValidIffMeasurementSent` | FrontEnd/src/pages/HealthTracking/healthTrackingUtils.ts:46-69 | a form passes validateHealthForm exactly when its record carries some key other than exercise_data |
| `HealthTrackingUtils.CalculateAge` | FrontEnd/src/pages/HealthTracking/healthTrackingUtils.ts:72-82 | no date of birth gives 30; an unreadable date gives NaN; otherwise the age is the number of whole years: the age-th birthday has been reached and the next one has not |
| `HealthTrackingUtils.FilterRecordsByTime` | FrontEnd/src/pages/HealthTracking/healthTrackingUtils.ts:85-112 | an empty list gives []; 'all' and any unknown filter give the records unchanged |
| `HealthTrackingUtils.TimeFilterKeeps` | FrontEnd/src/pages/HealthTracking/healthTrackingUtils.ts:97-108 | under '7days' or '30days' a record is kept iff it has a recorded_at read as an instant at or after the cutoff |
| `HealthTrackingUtils.TimeFilterSnoc` | FrontEnd/src/pages/HealthTracking/healthTrackingUtils.ts:97-108 | under '7days' or '30days', one more record is appended to the result iff it was recorded at or after the cutoff, so the result is the kept records in their original order, repeats included |
| `HealthTrackingUtils.SevenDaysWithinThirty` | FrontEnd/src/pages/HealthTracking/healthTrackingUtils.ts:97-108 | every record kept by '7days' is kept by '30days' |
| `MedicalHistoryUtils.DefaultFormData` | FrontEnd/src/pages/MedicalHistory/medicalHistoryUtils.ts:6-16 | the default form has today's date, record_type 'checkup' and every other text field empty |
| `MedicalHistoryUtils.Validate` | FrontEnd/src/pages/MedicalHistory/medicalHistoryUtils.ts:23-50 | the checks run in the order record_date, diagnosis, symptoms, record_type, future date, and the first failure's message is returned; the result is null iff every check passes |
| `MedicalHistoryUtils.ValidateAsWritten` | FrontEnd/src/pages/MedicalHistory/medicalHistoryUtils.ts:23-50 | a field error is reported first. Otherwise the date is refused as future iff it parses and midnight UTC of that day, in local minutes, lies after local midnight today; no other error is possible |
| `MedicalHistoryUtils.TodayAcceptedLaterRejected` | FrontEnd/src/pages/MedicalHistory/medicalHistoryUtils.ts:40-47 | once the field checks pass, a record dated today or earlier is accepted and one dated later is rejected |
| `MedicalHistoryUtils.BlankTextRejected` | FrontEnd/src/pages/MedicalHistory/medicalHistoryUtils.ts:28-34 | a whitespace-only diagnosis or symptoms value is refused with that field's message |
| `MedicalHistoryUtils.DefaultFormNeedsDiagnosis` | FrontEnd/src/pages/MedicalHistory/medicalHistoryUtils.ts:6-30 | the default form is stopped at the diagnosis check |
| `MedicalHistoryUtils.AsWrittenRejectsToday` | FrontEnd/src/pages/MedicalHistory/medicalHistoryUtils.ts:41-47 | east of UTC, the comparison as written refuses a record dated today, which the intended check accepts |
| `MedicalHistoryUtils.AsWrittenAgreesBehindUtc` | FrontEnd/src/pages/MedicalHistory/medicalHistoryUtils.ts:41-47 | at or west of UTC the comparison as written gives the intended result |
| `HealthStatus.Bmi` | FrontEnd/src/utils/service/healthTracking.ts:224-225 | the BMI is defined iff the height is non-zero, and then BMI × (height/100)² equals the weight |
| `HealthStatus.BmiBand` | FrontEnd/src/utils/service/healthTracking.ts:227-230 | one of the four bands: underweight iff below 18.5, normal iff 18.5 ≤ BMI < 25, overweight iff 25 ≤ BMI < 30, obese iff 30 and above |
| `HealthStatus.WeightBand` | FrontEnd/src/utils/service/healthTracking.ts:222-231 | for a non-zero height the band of the BMI; for a zero height the band JavaScript's Infinity, −Infinity or NaN lands in |
| `HealthStatus.WeightStatus` | FrontEnd/src/utils/service/healthTracking.ts:222-231 | for a non-zero height the status is Bình thường iff 18.5 ≤ BMI < 25; for a zero height it is Thiếu cân for a negative weight and Béo phì otherwise |
| `HealthStatus.PressureBand` | FrontEnd/src/utils/service/healthTracking.ts:233-243 | one of the seven bands: Thấp iff systolic < 90 or diastolic < 60. Otherwise each next band holds iff the reading is not in the previous one and both values are under its limits of 120/80, 130/85, 140/90, 160/100 or 180/110; Tăng nặng iff systolic ≥ 180 or diastolic ≥ 110 |
| `HealthStatus.HeartRateBand` | FrontEnd/src/utils/service/healthTracking.ts:245-250 | below 60 Thấp, 60..100 Bình thường, above 100 Cao |
| `HealthStatus.SugarBand` | FrontEnd/src/utils/service/healthTracking.ts:252-266 | below 3.9 low; normal up to 5.6 fasting or 7.8 after a meal; diabetic above 7.0 fasting or 11.0 after a meal |
| `HealthStatus.TemperatureBand` | FrontEnd/src/utils/service/healthTracking.ts:268-275 | one of the six bands: below 35.0, from 35.0 below 36.5, normal from 36.5 to 37.5, above 37.5 to 38.5, above 38.5 to 40.0, and Sốt cao above 40.0, each an iff |
| `HealthStatus.SleepBand` | FrontEnd/src/utils/service/healthTracking.ts:277-282 | one of the four bands: below 6 hours, from 6 below 7, Đủ giấc from 7 to 9 hours, and above 9, each an iff |
| `HealthStatus.BandsMonotone` | FrontEnd/src/utils/service/healthTracking.ts:222-282 | BMI, heart-rate, sugar, temperature and sleep classifiers are monotone: a larger reading never gets a lower band |
| `HealthStatus.PressureMonotone` | FrontEnd/src/utils/service/healthTracking.ts:233-243 | raising both blood-pressure numbers never lowers the band |
| `HealthStatus.HeartRateIgnoresAge` | FrontEnd/src/utils/service/healthTracking.ts:245-250 | the heart-rate band does not depend on the age argument |
| `HealthStatus.PostMealIsLenient` | FrontEnd/src/utils/service/healthTracking.ts:252-266 | a post-meal reading never gets a higher band than the same fasting reading |
| `PasswordRules.Code` | BackEnd/utils/format/passwd.js:2-8 | every strength has one of the codes 0..4 |
| `PasswordRules.CodesDistinct` | BackEnd/utils/format/passwd.js:2-8 | the five strengths have five different codes |
| `PasswordRules.ClassesMembers` | FrontEnd/src/utils/validate/passwd.ts:15-29 | a class counts as present exactly when its regular-expression test succeeds on some character |
| `PasswordRules.ElementCountIsClassCount` | FrontEnd/src/utils/validate/passwd.ts:35-42 | the number of successful class tests is the number of distinct classes present, so at most 4 |
| `PasswordRules.FlagSetSize` | BackEnd/utils/format/passwd.js:34-38 | a set of classes given by four flags has one element per set flag |
| `PasswordRules.RemoveOne` | BackEnd/utils/format/passwd.js:34-38 | removing one class from a set lowers its size by one exactly when the class was in it |
| `PasswordRules.Rate` | BackEnd/utils/format/passwd.js:44-54 | Short iff below the minimum length; Common iff long enough and matching a common pattern anywhere; otherwise Weak for at most two classes, Ok for three, Strong for four |
| `PasswordRules.CommonRegardlessOfMix` | BackEnd/utils/format/passwd.js:19-26 | a long-enough password containing passw, 12345, 09876, qwert, asdfg, zxcvb, footb, baseb or drago anywhere is Common whatever its character mix |
| `PasswordRules.StrongHasAllClasses` | FrontEnd/src/utils/validate/passwd.ts:60-63 | a Strong password has lowercase, uppercase, digit and other characters |
| `PasswordRules.MinimumLengthOnlyAddsShort` | FrontEnd/src/utils/validate/passwd.ts:12 | the two checkers agree on every password long enough for both, and the longer minimum only turns more passwords Short |
| `BackendPassword.CheckPasswordStrength` | BackEnd/utils/format/passwd.js:31-58 | null is Short; a string gets the rating with minimum length 5; undefined makes `password.length` throw; any rating from Weak up implies a long-enough, non-common string |
| `BackendPassword.StatePassword` | BackEnd/utils/format/passwd.js:61-64 | statePassword gives what checkPasswordStrength gives |
| `FrontendPassword.CountPasswordElements` | FrontEnd/src/utils/validate/passwd.ts:35-42 | the count is the number of character classes present, between 0 and 4 |
| `FrontendPassword.CheckPasswordStrength` | FrontEnd/src/utils/validate/passwd.ts:44-67 | null, undefined, empty or shorter than 8 is Short; otherwise the shared rating with minimum length 8 (the switch's default is never reached) |
| `FrontendPassword.GetPasswordStrength` | FrontEnd/src/utils/validate/passwd.ts:70-72 | getPasswordStrength gives what checkPasswordStrength gives |
| `CommentCount.CountTotalComments` | FrontEnd/src/utils/service/Forum/comment.ts:7-18 | the loop and its recursion count every comment of the forest once: the result is the number of nodes |
| `CommentCount.FlattenConcat` | FrontEnd/src/utils/service/Forum/comment.ts:10-15 | the comments of two lists together are those of the first followed by those of the second |
| `CommentCount.RepliesSmaller` | FrontEnd/src/utils/service/Forum/comment.ts:12-14 | a comment's replies hold fewer comments than the list it belongs to, so the recursion ends |
| `CommentCount.EmptyCountsZero` | FrontEnd/src/utils/service/Forum/comment.ts:7-18 | the empty list counts 0 |
| `CommentCount.AtLeastTopLevel` | FrontEnd/src/utils/service/Forum/comment.ts:10-11 | the count is at least the number of top-level comments |
| `CommentCount.NoRepliesCountsTopLevel` | FrontEnd/src/utils/service/Forum/comment.ts:10-15 | a list whose comments have no replies counts exactly its length |
| `CommentCount.CountAdditive` | FrontEnd/src/utils/service/Forum/comment.ts:10-17 | the count of two lists together is the sum of their counts |
| `ForumPost.ChildrenMembers` | BackEnd/models/Forum/post.js:300-301 | every comment the filter keeps is a row of the flat list with the given parent |
| `ForumPost.BuildCommentTree` | BackEnd/models/Forum/post.js:299-307 | the roots are exactly the top-level comments in order, and every node holds its comment with the tree built from that comment's direct replies |
| `ForumPost.CommentsOfPost` | BackEnd/models/Forum/post.js:297-310 | without includeCommentReplies the comments are the flat list unchanged; with it, the top-level nodes are the comments whose parent is null, in flat order |
| `ForumPost.NodeComments` | BackEnd/models/Forum/post.js:302-305 | one comment per node, in order |
| `ForumPost.TreeBuilt` | BackEnd/models/Forum/post.js:299-306 | at every level the nodes are exactly the flat comments whose parent_comment_id is the parent's id, in flat order, and each node is built the same way further down |
| `ForumPost.NodesBuilt` | BackEnd/models/Forum/post.js:302-305 | the map step keeps the children in order and builds each one's replies correctly |
| `ForumPost.RootsAreTopLevel` | BackEnd/models/Forum/post.js:299-307 | the roots are exactly the comments whose parent_comment_id is null, in flat-list order |
| `ForumPost.BelowHasParent` | BackEnd/models/Forum/post.js:299-306 | every comment below a node of the tree has a parent that is one of the rows |
| `ForumPost.OrphansDropped` | BackEnd/models/Forum/post.js:299-307 | a comment whose parent is not among the rows appears nowhere in the tree |
| `ForumPost.TagList` | BackEnd/models/Forum/post.js:60 | a null or empty tag column gives []; otherwise the comma-free pieces that join back to the column |
| `ForumPost.TagsRoundTrip` | BackEnd/models/Forum/post.js:127 | comma-free tag names joined with ',' decode back to the same list |
| `ForumPost.BuildPostUpdate` | BackEnd/models/Forum/post.js:424-441 | with neither value defined it is 'No valid fields to update'. Otherwise the SET list is exactly 'title = ?' if the title is defined followed by 'content = ?' if the content is defined, and the params are those values in the same order followed by postId |
| `ForumPost.SelectExisting` | BackEnd/models/Forum/post.js:361-367 | the existing-tag map holds exactly the stored names whose collation key is the key of some requested tag, each with its row's id; a request that differs in case from the stored name finds the stored name, not itself |
| `ForumPost.InsertTags` | BackEnd/models/Forum/post.js:371-389 | each tag whose collation key is not yet stored is inserted once, in order, with consecutive new ids; a tag whose key is stored (a duplicate-entry error) reads back that row's id. Stored rows are untouched, and every tag handled, and every selected one, maps to the id of its key's row |
| `ForumPost.CreatePostTags` | BackEnd/models/Forum/post.js:360-398 | the SELECT of existing tags matches under the collation key; only tags whose key is not stored yet are inserted, as new rows with consecutive ids, and stored rows are untouched. Afterwards the tag keys are the old ones plus the keys of all tags, and there is one (postId, id of the tag's row) mapping row per input tag, in order |
| `ForumPost.CollationVariantReusesRow` | BackEnd/models/Forum/post.js:361-389 | a tag that differs from a stored name only under the collation inserts no row and is mapped to the stored row's id |
| `ForumComment.CommentTable.constructor` | BackEnd/models/Forum/comment.js:94-101 | an empty comments table whose auto-increment starts at 1 is well formed |
| `ForumComment.CommentTable.AddCommentToPost` | BackEnd/models/Forum/comment.js:94-154 | the call succeeds iff the parent id is falsy or names a row of the same post. A truthy parent id that names no row fails with 'Parent comment not found'; one on another post fails with 'Parent comment does not belong to this post'; no other error occurs, and both leave the table as it was. Otherwise exactly one row is inserted under the next id. A top-level comment has depth 0 and no path; a reply has the parent's depth plus one and the parent's path extended by the parent id. Every row keeps depth and path in agreement |
| `ForumComment.ChildPathShape` | BackEnd/models/Forum/comment.js:115-118 | a reply's path has one '-' fewer than its depth, given that its parent's does |
| `ForumComment.ComponentsMatchDepth` | BackEnd/models/Forum/comment.js:115-118 | split on '-', a stored thread path has exactly depth components |
| `ForumComment.CommentPagesTile` | BackEnd/models/Forum/comment.js:7 | the comment pages start at offset 0 and each one starts where the previous ends (also line 50) |
| `ForumLike.LikeTables.constructor` | BackEnd/models/Forum/like.js:3-7 | the like tables start with the given rows |
| `ForumLike.LikeTables.LikePost` | BackEnd/models/Forum/like.js:3-33 | the call fails with 'You have already liked this post' exactly when the pair is already stored, and the table is then unchanged. Otherwise the pair is added. The comment likes are never touched |
| `ForumLike.LikeTables.UnlikePost` | BackEnd/models/Forum/like.js:35-65 | the call fails with 'You have not liked this post' exactly when the pair is absent, and the table is then unchanged. Otherwise the pair is removed. The comment likes are never touched |
| `ForumLike.LikeTables.LikeComment` | BackEnd/models/Forum/like.js:67-94 | the call fails with 'You have already liked this comment' exactly when the pair is stored, and the table is then unchanged. Otherwise the pair is added. The post likes are never touched |
| `ForumLike.LikeTables.UnlikeComment` | BackEnd/models/Forum/like.js:96-117 | the call fails with 'Comment not liked' exactly when the pair is absent, and the table is then unchanged. Otherwise the pair is removed. postId plays no part, and the post likes are never touched |
| `ForumLike.LikeTwice` | BackEnd/models/Forum/like.js:9-16 | a second like of the same post always fails as already liked, and the pair is then stored once |
| `ForumLike.LikeThenUnlike` | BackEnd/models/Forum/like.js:9-57 | liking a post the user has not liked and then unliking it both succeed and leave both like tables as they were |
| `ForumLike.UnlikeThenLike` | BackEnd/models/Forum/like.js:9-57 | unliking a liked post and liking it again both succeed and leave both like tables as they were |
| `ForumLike.CommentLikeThenUnlike` | BackEnd/models/Forum/like.js:67-117 | liking a comment the user has not liked and then unliking it both succeed and leave both like tables as they were |
| `ForumLike.CommentUnlikeThenLike` | BackEnd/models/Forum/like.js:67-117 | unliking a liked comment and liking it again both succeed and leave both like tables as they were |
| `ForumActivity.ClausesStep` | BackEnd/models/Forum/activity.js:270-288 | one more filter adds its clause and value at the end exactly when its value is truthy |
| `ForumActivity.AppendFilter` | BackEnd/models/Forum/activity.js:270-273 | one if-block moves the query from the first k filters to the first k+1 (the same shape as :275-288) |
| `ForumActivity.BuildActivityCount` | BackEnd/models/Forum/activity.js:263-290 | the query is the base count followed by the clauses of the truthy filters, in the order userId, type, targetType, targetId, with one parameter per '?' |
| `ForumActivity.ClausePlaceholder` | BackEnd/models/Forum/activity.js:271 | a column clause holds exactly one placeholder |
| `ForumActivity.PlaceholdersMatchParams` | BackEnd/models/Forum/activity.js:270-290 | the query text holds as many '?' as there are parameters |
| `ForumActivity.OnlyFilterKeysMatter` | BackEnd/models/Forum/activity.js:270-288 | two filter objects that agree on the four keys give the same query |
| `ForumActivity.NoTruthyFilterBareQuery` | BackEnd/models/Forum/activity.js:267-268 | with no truthy filter the query is the bare count and has no parameters |
| `ForumActivity.NoFiltersBareQuery` | BackEnd/models/Forum/activity.js:263-268 | the default {} gives the bare count, and so does an object holding only an id |
| `ForumActivity.UnknownKeysIgnored` | BackEnd/models/Forum/activity.js:270-288 | a key other than the four filters changes nothing |
| `ForumActivity.FalsyFilterIgnored` | BackEnd/models/Forum/activity.js:270-288 | setting any key to a falsy value, where it was falsy or absent before, changes nothing |
| `ForumActivity.TruthinessOnlyMatters` | BackEnd/models/Forum/activity.js:270-288 | the clauses depend only on which filters are truthy and on the truthy values |
| `ForumActivity.CreateActivityCheck` | BackEnd/models/Forum/activity.js:149-152 | creation goes ahead if and only if all four arguments are truthy; otherwise it fails with 'Missing required parameters' |
| `Paginate.OrDefault` | BackEnd/middleware/paginate.js:4-5 | a parsed non-zero number is kept; NaN or 0 gives the fallback |
| `Paginate.Paginate` | BackEnd/middleware/paginate.js:1-18 | next is called and page, limit and offset are stored. The page is the parsed page or 1. The limit is the parsed limit or the default, capped at maxLimit. The offset is (page - 1) * limit |
| `Paginate.PagesTile` | BackEnd/middleware/paginate.js:11 | page 1 starts at row 0, page n+1 starts limit rows after page n, and a positive page with a non-negative limit never gives a negative offset |
| `Paginate.NoLowerBound` | BackEnd/middleware/paginate.js:4-11 | a negative page is passed through and gives a negative offset |
| `UserModel.LoginColumn` | BackEnd/models/User.js:29-31 | the lookup uses email exactly when the field contains '@', and username otherwise (also :50-52) |
| `UserModel.WithoutPassword` | BackEnd/models/User.js:29-31 | the returned user keeps the id, role and verified_at of the row and drops the hash; it carries the username iff the lookup column is username and the email iff it is email, each with the row's value |
| `UserModel.Verified` | BackEnd/models/User.js:118 | an account counts as verified exactly when its verified_at is truthy, so a null or empty value is not |
| `UserModel.FindUserByLoginField` | BackEnd/models/User.js:24-43 | the result is a row whose login column equals the field; none is found only when no row matches |
| `UserModel.FindUserByUsernameOrEmail` | BackEnd/models/User.js:4-22 | the result is a row that shares the username or the email; none is found only when no row shares either |
| `UserModel.CreateUserConflict` | BackEnd/models/User.js:72-80 | sign-up goes ahead if and only if no row shares the username or the email. A shared username is reported first; 'Email đã tồn tại' means some row holds the email under another username |
| `UserModel.ConflictNeedsMatch` | BackEnd/models/User.js:72-80 | a username no row holds is never reported as taken, and neither is an email no row holds |
| `UserModel.LoginUser` | BackEnd/models/User.js:101-135 | an unknown login field fails as unknown. The login succeeds if and only if the user exists, the password matches the hash, verified_at is truthy and the last-login update succeeds; a failed last-login update after those checks, and only that, gives the last-login error. It returns the selected columns without the password hash, and every error is one of the four messages, rethrown unchanged |
| `UserModel.LoginFieldColumn` | BackEnd/models/User.js:29-31 | a logged-in user carries the login field under email when it has '@', otherwise under username, and never the other column |
| `UserModel.WrongPasswordRefused` | BackEnd/models/User.js:113-120 | a wrong password is always refused under that message, whatever the verification state; a right password on an unverified account is refused as unverified |
| `UserModel.Assignments` | BackEnd/models/User.js:225 | one assignment per kept field |
| `UserModel.EntryValues` | BackEnd/models/User.js:226 | one value per kept field |
| `UserModel.UpdateUserProfile` | BackEnd/models/User.js:201-232 | the call fails exactly when no entry is a valid field with a defined value. Otherwise the SET list names the kept entries in key order, and the values are theirs followed by the user id |
| `UserModel.UpdateTouchesValidFields` | BackEnd/models/User.js:214-218 | an entry is kept if and only if its key is a valid field and its value is not undefined; a null value is kept |
| `UserModel.PlaceholdersMatchValues` | BackEnd/models/User.js:225-231 | the UPDATE statement holds exactly one '?' per value passed |
| `UserModel.SqlFramePlaceholders` | BackEnd/models/User.js:231 | the text around the SET list holds only the user id's placeholder |
| `UserModel.AssignmentPlaceholders` | BackEnd/models/User.js:225 | the SET list holds one '?' per assignment |
| `UserController.Lookup` | BackEnd/controllers/userController.js:66 | a defined value read under a key is an entry of the object; a key that is absent reads as undefined |
| `UserController.BlankedFor` | BackEnd/controllers/userController.js:74-78 | keys and order are kept; exactly the '' values of the listed fields become null, and everything else is unchanged |
| `UserController.BlankedStep` | BackEnd/controllers/userController.js:74-78 | one more field of the forEach is the same as blanking the longer list |
| `UserController.Blanked` | BackEnd/controllers/userController.js:74-78 | the entries keep their number and keys; no nullable field is left holding '', and the only entries that change go from '' to null |
| `UserController.Sanitize` | BackEnd/controllers/userController.js:47-55 | the sanitised body is the body's entries under allowed keys, in order |
| `UserController.NullBlankFields` | BackEnd/controllers/userController.js:74-78 | the data is the sanitised body with '' turned into null in the five nullable fields |
| `UserController.UpdateProfile` | BackEnd/controllers/userController.js:41-95 | no allowed field gives 400 'No valid fields provided for update', and a truthy gender other than Male/Female gives 400. Otherwise the model runs on the blanked data: 200 with its statement, or 500 with the update-failed message when it refuses because no field is kept. The status is always 200, 400 or 500, and no statement runs unless the answer is 200 |
| `UserController.GenderReachingModel` | BackEnd/controllers/userController.js:66-78 | a gender that reaches the model is "Male", "Female", or a falsy value other than '' |
| `UserController.BlankedLookup` | BackEnd/controllers/userController.js:74-78 | reading a field after the rewrite gives null for a nullable field that was '', and the old value otherwise |
| `UserController.NoEmptyNullableField` | BackEnd/controllers/userController.js:74-78 | no nullable field is passed on as '', while an empty full_name is passed on unchanged |
| `UserController.UpdateUsesBodyFields` | BackEnd/controllers/userController.js:47-80 | every entry in the statement has an allowed key and comes from the body, either unchanged or as a '' turned into null |
| `UserController.AvatarCheck` | BackEnd/controllers/userController.js:97-117 | a missing file gives 400 'No image file provided'; a MIME type outside JPEG/PNG/GIF/WebP gives the invalid-type 400; the upload goes ahead exactly for the four types |
| `ForumActivity.GuardMessage` | BackEnd/models/Forum/activity.js:30-238 | each read or delete function goes ahead exactly when its required arguments are truthy. Otherwise it throws its own message; getActivitiesByUserAndTypeDB checks the user before the type (the checks are at :31, :61, :90-91, :120, :182, :208-210 and :238) |
| `ForumComment.CommentsByUserCheck` | BackEnd/models/Forum/comment.js:45-47 | the user's comment list is queried exactly when the user id is truthy; otherwise it throws 'User ID is required' |
| `ChatMessage.FormatMessage` | BackEnd/models/ChatMessage.js:14-19 | role is "user" exactly for user rows and "assistant" for every other row. Content and timestamp are copied. A null or empty image URL becomes undefined, and any other URL is kept |
| `ChatMessage.FormatMessages` | BackEnd/models/ChatMessage.js:10-21 | one frontend message per stored message, in query order |
| `ChatMessage.ParamsOf` | BackEnd/models/ChatMessage.js:84-97 | five parameters per message |
| `ChatMessage.AddMultipleMessages` | BackEnd/models/ChatMessage.js:73-106 | the call succeeds exactly for a non-empty array with no null or undefined element. It then gives one '(?, ?, ?, ?, ?)' group per message and the parameters in message order. Every failure is rethrown as 'Failed to add multiple messages' |
| `ChatMessage.ParamsGroup` | BackEnd/models/ChatMessage.js:89-96 | message i's parameters are exactly the i-th group of five |
| `ChatMessage.RoleRoundTrip` | BackEnd/models/ChatMessage.js:15 | a message saved with role r is shown with role "user" exactly when r was "user", otherwise "assistant", never "bot" (the mapping on save is :86) |
| `ChatMessage.SenderIdOnlyForUser` | BackEnd/models/ChatMessage.js:86-96 | the sender id parameter is the user id for user messages and null otherwise, and the last parameter is the message content |
| `ChatMiddleware.ChatBody.constructor` | BackEnd/middleware/chatMiddleware.js:4 | the body holds the message and history it was given |
| `ChatMiddleware.ChatBody.Validate` | BackEnd/middleware/chatMiddleware.js:4-39 | a falsy or white-space message gives 400 'Message is required…', and a truthy non-string throws. A trimmed message over 1000 characters gives 400 and stays trimmed. next() is reached exactly otherwise, with the message trimmed and the history cleaned. No rejection touches the history |
| `ChatMiddleware.CleanHistoryKeepsValid` | BackEnd/middleware/chatMiddleware.js:30-36 | an array history keeps exactly the object entries with string content and string role, and cleaning it again changes nothing |
| `ChatMiddleware.CleanHistoryIdempotent` | BackEnd/middleware/chatMiddleware.js:24-36 | cleaning any history twice is the same as cleaning it once |
| `ChatMiddleware.ValidateTwice` | BackEnd/middleware/chatMiddleware.js:4-39 | a request that passed passes again, with its trimmed message and its cleaned history |
| `ChatMiddlewareTruncate.ChatBody.constructor` | BackEnd/middlewares/chatMiddleware.js:4 | the body holds the message and chatHistory it was given |
| `ChatMiddlewareTruncate.ChatBody.Validate` | BackEnd/middlewares/chatMiddleware.js:4-36 | a falsy or white-space message gives 400, and a truthy non-string throws; both leave the body unchanged. Otherwise next() is reached, with the message trimmed and cut to 1000 characters and chatHistory cleaned |
| `ChatMiddlewareTruncate.Truncated` | BackEnd/middlewares/chatMiddleware.js:17-19 | the result is a prefix of the text and at most 1000 characters long; a text within the limit is unchanged, and a longer one is cut to exactly 1000 |
| `ChatMiddlewareTruncate.CleanHistoryKeepsValid` | BackEnd/middlewares/chatMiddleware.js:27-33 | an array chatHistory keeps exactly the object entries with string content and boolean isUser |
| `ChatMiddlewareTruncate.PassedMessageShape` | BackEnd/middlewares/chatMiddleware.js:6-19 | a message that reaches next() is non-empty and does not start with white space |
| `ChatMiddlewareTruncate.TruncationCanEndInSpace` | BackEnd/middlewares/chatMiddleware.js:14-19 | a trimmed 1001-character text whose 1000th character is a space is cut to a message ending in white space |
| `Appointment.ValidateAppointmentBody` | BackEnd/middleware/appointmentMiddleware.js:4-10 | next() is reached if and only if doctor_id and appointment_time are both truthy; otherwise the request is rejected with the 400 message |
| `Appointment.Request.constructor` | BackEnd/middleware/appointmentMiddleware.js:12 | a request starts without an appointment |
| `Appointment.Request.LoadAppointment` | BackEnd/middleware/appointmentMiddleware.js:12-23 | next() is reached exactly when the id names an appointment, and that row is attached to the request. Otherwise the answer is 404 and the request is unchanged |
| `Appointment.AuthorizeAppointmentAccess` | BackEnd/middleware/appointmentMiddleware.js:25-36 | a Doctor is let in exactly through doctor_id, and any other role exactly through patient_id; everyone else gets 403 |
| `Appointment.RolesDoNotMix` | BackEnd/middleware/appointmentMiddleware.js:29-33 | a doctor who is not the appointment's doctor is refused even when they are its patient, and a non-doctor who is not its patient is refused |
| `Appointment.LoadThenAuthorize` | BackEnd/middleware/appointmentMiddleware.js:12-36 | a missing appointment stops with 404 before any role check; a present one is judged by the access rule on its own row |
| `Phone.PhoneCharacterization` | BackEnd/utils/format/number.js:22-23 | the pattern accepts exactly the digit strings that start with 03, 05, 07, 08 or 09 and have ten digits, or start with 012, 016, 018 or 019 and have eleven |
| `Phone.IsVietnamesePhoneNumber` | BackEnd/utils/format/number.js:18-24 | a value is accepted iff it is a string of ten or eleven digits starting with 0, whose second digit is 3, 5, 7, 8 or 9 for ten digits, and whose next two are 1 and one of 2, 6, 8, 9 for eleven |
| `Phone.TwoDigitPrefix` | BackEnd/utils/format/number.js:22 | a two-character prefix is accepted exactly for 0 followed by 3, 5, 7, 8 or 9 |
| `Phone.ThreeDigitPrefix` | BackEnd/utils/format/number.js:22 | a three-character prefix is accepted exactly for 01 followed by 2, 6, 8 or 9 |
| `Phone.OnlyDigitsAccepted` | BackEnd/utils/format/number.js:18-24 | a number holding a space, a '+' or any other non-digit never matches |
| `Phone.IsDateValidDDMMYYYY` | BackEnd/utils/format/number.js:7-11 | a date without exactly three '/'-separated parts is invalid |
| `Phone.DateReordered` | BackEnd/utils/format/number.js:7-16 | with three parts, the text handed to Date.parse is the parsed month, day and year joined by '/', and its verdict is the result |
| `Phone.ShownNoSlash` | BackEnd/utils/format/number.js:15 | a rendered number or NaN holds no '/' |
| `Phone.SplitThree` | BackEnd/utils/format/number.js:15 | three slash-free pieces joined by '/' split back into the same three |
| `PhoneFormat.FormatPhoneNumber` | FrontEnd/src/utils/format/number.ts:9-11 | the formatted number is a slice of the input with only white space cut from either end; it neither starts nor ends with white space, and formatting it again changes nothing |
| `PhoneFormat.ValidatePhoneNumber` | FrontEnd/src/utils/format/number.ts:13-23 | a falsy number is reported as required, a truthy one that fails the pattern as invalid; the answer is '' exactly when the pattern holds (the pattern, :1-7, is the backend's) |
| `PhoneFormat.PaddedNumberNeedsFormatting` | FrontEnd/src/utils/format/number.ts:9-23 | a valid number with a leading space is refused until formatPhoneNumber has trimmed it |
| `PhoneFormat.LeadingSpaceTrimmed` | FrontEnd/src/utils/format/number.ts:10 | trimming one leading space off a number without outer white space gives the number |
| `PhoneFormat.ValidatePhoneNumbers` | FrontEnd/src/utils/format/number.ts:25-37 | an empty list is reported as required. The result is 'Invalid phone number' if and only if some element fails the pattern, and '' if and only if every element passes |
| `Email.IsEmailMatchesPattern` | FrontEnd/src/utils/format/email.ts:1-5 | a scan that takes the first '@' and the last '.' after it accepts exactly the strings the anchored, case-insensitive pattern matches |
| `Email.IsEmail` | FrontEnd/src/utils/format/email.ts:1-5 | the test accepts exactly the strings the address pattern matches |
| `Email.ScanMatches` | FrontEnd/src/utils/format/email.ts:1 | the split points the scan finds form a match of the pattern |
| `Email.MatchScans` | FrontEnd/src/utils/format/email.ts:1 | any match of the pattern is found by the scan |
| `Email.FirstAt` | FrontEnd/src/utils/format/email.ts:1 | an '@' with none before it is the first found |
| `Email.LastDot` | FrontEnd/src/utils/format/email.ts:1 | a '.' with none after it is the last found |
| `Email.NoAtInLocal` | FrontEnd/src/utils/format/email.ts:1 | no local-part character is '@' |
| `Email.NoDotInLabel` | FrontEnd/src/utils/format/email.ts:1 | the final label of letters holds no '.' |
| `Email.OneAt` | FrontEnd/src/utils/format/email.ts:1 | an accepted address holds exactly one '@' |
| `Email.CaseInsensitive` | FrontEnd/src/utils/format/email.ts:1 | under the i flag, an address and its lower-cased form are accepted together |
| `Email.MatchLower` | FrontEnd/src/utils/format/email.ts:1 | lower-casing keeps every split point of a match |
| `Email.LowerKeepsClasses` | FrontEnd/src/utils/format/email.ts:1 | lower-casing keeps each character class of the pattern, and white space |
| `Email.LowerKeepsRuns` | FrontEnd/src/utils/format/email.ts:1 | lower-casing keeps each run of the pattern's classes |
| `Email.LowerSlices` | FrontEnd/src/utils/format/email.ts:8 | lower-casing commutes with taking slices |
| `Email.LowerIdempotent` | FrontEnd/src/utils/format/email.ts:8 | lower-casing twice is lower-casing once |
| `Email.LowerStaysTrimmed` | FrontEnd/src/utils/format/email.ts:8 | a trimmed text stays trimmed when lower-cased |
| `Email.FormatEmail` | FrontEnd/src/utils/format/email.ts:7-9 | each character of the formatted address is the trimmed input's character, lower-cased; the result is trimmed and lower case, and the email pattern accepts it exactly when it accepts the trimmed input |
| `Email.FormatEmailIdempotent` | FrontEnd/src/utils/format/email.ts:7-9 | formatting a formatted address changes nothing |
| `Email.ValidateEmail` | FrontEnd/src/utils/format/email.ts:11-21 | the empty string is reported as required. The result is 'Invalid email' if and only if a non-empty address fails the pattern, and '' if and only if it matches |
| `Email.LeadingSpaceRejected` | FrontEnd/src/utils/format/email.ts:11-21 | validateEmail does not trim, so an address with a leading space is invalid |
| `Email.ValidateEmails` | FrontEnd/src/utils/format/email.ts:23-35 | an empty list is reported as required. The result is 'Invalid email' if and only if some address fails, and '' if and only if all match |
| `Email.Pieces` | FrontEnd/src/utils/format/email.ts:38 | one trimmed piece per comma-separated part |
| `Email.ValidateEmailsString` | FrontEnd/src/utils/format/email.ts:37-40 | never 'Emails are required', since splitting gives at least one piece. The result is '' exactly when every trimmed piece matches, and 'Invalid email' exactly when some piece fails |
| `Email.SplitTrailingSeparator` | FrontEnd/src/utils/format/email.ts:38 | a text ending in a comma splits into a last part that is empty |
| `Email.NoCountNoChar` | FrontEnd/src/utils/format/email.ts:38 | a character counted zero times does not occur |
| `Email.TrailingCommaInvalid` | FrontEnd/src/utils/format/email.ts:37-40 | a list ending in a comma is always invalid, because its empty last piece fails |
| `Email.EmptyPieceInvalid` | FrontEnd/src/utils/format/email.ts:1-5 | an empty piece is not an address |
| `DateFormat.FormatTimeAgo` | FrontEnd/src/utils/format/date.ts:1-30 | an empty date gives ''. Under a minute, or in the future, the result is 'Vừa xong'. Under an hour it is whole minutes (1-59), under a day whole hours (1-23), and under a week whole days (1-6), each floored. From seven days on it is the date as YYYY-MM-DD with a zero-padded month and day |
| `DateFormat.FloorsCompose` | FrontEnd/src/utils/format/date.ts:7-10 | flooring seconds, then minutes, hours and days, is the floor of the milliseconds divided by the whole unit |
| `DateFormat.NestedFloor` | FrontEnd/src/utils/format/date.ts:7-10 | floored division by b and then by c is floored division by b*c, negative values included |
| `DateFormat.DivUnique` | FrontEnd/src/utils/format/date.ts:7-10 | the floored quotient is the only q that leaves a remainder in [0, d) |
| `DateFormat.FutureIsJustNow` | FrontEnd/src/utils/format/date.ts:12-19 | a date after now, however far ahead, shows as 'Vừa xong' |
| `ForumMessages.MessageTexts` | FrontEnd/src/utils/constants/forum-messages.ts:41 | one text per error entry, in order: its message as join writes it |
| `ForumMessages.BuildDetailedErrors` | FrontEnd/src/utils/constants/forum-messages.ts:38-43 | falsy or non-array errors give ''. An array throws exactly when some entry is null or undefined, and otherwise gives the entries' messages joined by line breaks |
| `ForumMessages.OneLinePerMessage` | FrontEnd/src/utils/constants/forum-messages.ts:40-42 | n one-line string messages give a text with n - 1 line breaks that splits back into the messages in order |
| `ForumMessages.OnlyMessagesRead` | FrontEnd/src/utils/constants/forum-messages.ts:41 | entries with the same messages give the same text, whatever else they hold |
| `Category.ValidateInputs` | FrontEnd/src/utils/service/Forum/category.ts:11-24 | a blank name gives NAME_REQUIRED, and a trimmed name outside 3-50 gives NAME_LENGTH. A non-empty trimmed description outside 10-200 gives DESC_LENGTH. The result is null if and only if all checks pass |
| `Category.OnlyTrimmedMatter` | FrontEnd/src/utils/service/Forum/category.ts:13-22 | inputs with equal trimmed forms get the same verdict, and a missing description counts as an empty one |
| `Category.ApiErrorMessage` | FrontEnd/src/utils/service/Forum/category.ts:26-37 | the message shown throws exactly when building the detailed errors throws |
| `Category.OwnMessageFallback` | FrontEnd/src/utils/service/Forum/category.ts:31-36 | without an API message or details, the error's own non-empty message is shown alone |
| `Category.ApiMessagePrecedence` | FrontEnd/src/utils/service/Forum/category.ts:31-36 | the API's message wins over the error's own. Without details it is shown alone; with details, they follow after one line break |
| `Category.DefaultWhenSilent` | FrontEnd/src/utils/service/Forum/category.ts:31-36 | for every error whose own message, API message and detailed errors are all absent or falsy, the default message is shown alone |
| `Category.DefaultForEmptyError` | FrontEnd/src/utils/service/Forum/category.ts:31-36 | an empty error object and a null error both show the default message alone |
| `Category.TrimSome` | FrontEnd/src/utils/service/Forum/category.ts:171 | a missing description stays missing, and the trimmed description is unchanged by the trim |
| `Category.CreateRequest` | FrontEnd/src/utils/service/Forum/category.ts:161-172 | nothing is sent when validation fails, and its message is shown. Otherwise the trimmed name (which fits 3-50) and the trimmed description are sent |
| `Category.SentValuesValidate` | FrontEnd/src/utils/service/Forum/category.ts:163-172 | the values sent pass validation again, and trimming them again changes nothing |
| `Category.PassedChecks` | FrontEnd/src/utils/service/Forum/category.ts:16-23 | passing the checks means the trimmed name fits and the trimmed description is empty or fits |
| `Category.ChecksPass` | FrontEnd/src/utils/service/Forum/category.ts:16-23 | a name and description that fit once trimmed pass the checks |
| `Category.TrimmedNameFits` | FrontEnd/src/utils/service/Forum/category.ts:170 | a name that fits once trimmed still fits when trimmed twice |

## Left out

- I/O: database connections and transactions, HTTP responses as objects, file system access and the CLI entry points are not modelled. Tables are in-memory sets, maps or sequences, and a rollback is "the state is unchanged".
- Three behaviours of the code are modelled as written:
  - `extract_text` never forwards its mode to the PDF extractor, so a PDF always runs in processed mode;
  - the OCR fallback puts "\n\n" after every page rather than between pages;
  - the backend `checkPasswordStrength` throws a TypeError on `undefined`, because only `null` is tested before reading `.length`.
- Pixel and OCR internals (grayscale, thresholding, morphology, PIL enhancers, Tesseract, PDF rendering, DOCX reading): their outputs are inputs to the model, and the enhancement chain is a sequence of step tags.
- The chat model call and its prompt text, `json.loads`/`json.dumps`, `JSON.parse`/`JSON.stringify`: parameters, which the model does not interpret.
- `Date`, time zones and the clock: timestamps are integers and calendar dates are tuples. An invalid date (NaN) is an Option value with None for NaN in the medical record form check, in CalculateAge and in FilterRecordsByTime; it is not modelled in the history sort.
- DateFormat.FormatTimeAgo: the millisecond difference is an integer, so the text 'NaN-NaN-NaN' that an invalid date gives is not modelled.
- `parseInt`, `parseFloat`, `Number`: parameters giving Option values, with None for NaN. The NaN statuses of a malformed blood-pressure string are not modelled.
- bcrypt, uuid, ImageKit and the avatar upload itself: the password compare and fresh ids are parameters, and the last-login update's success is a boolean.
- String lengths are counted in Unicode scalar values, while JavaScript counts UTF-16 code units. The two differ only for characters outside the Basic Multilingual Plane.
- Case mapping (`toLowerCase`, Python `lower`) is modelled for ASCII letters only.
- JavaScript objects are maps where key order does not matter. The profile update bodies, where key order decides the SET list, are sequences of entries in key order.
- SQL collation: username and email comparisons in the user model are exact, whereas MySQL's default collation ignores case. For forum tags the collation is a key function passed to ForumPost.CreatePostTags and ForumPost.InsertTags: the existing-tag SELECT, the duplicate-entry error and the read-back of the stored id all compare keys, so a case variant of a stored tag reuses that row (ForumPost.CollationVariantReusesRow).
- `buildCommentTree` on cyclic parent links does not terminate. The model requires links that rank below their parents (an acyclic forest).
- React rendering, state setters, toasts and the network-calling handlers around the modelled computations.
- Express-validator chains, rate limiting, the other controllers and SQL query modules, the skin-image classifier and the model setup script: not part of this model.
- Category.ApiErrorMessage: its own contract states only when building the message throws. The text it shows is stated by ApiMessagePrecedence, OwnMessageFallback and DefaultWhenSilent for the shapes they cover.
- HealthStatus.Bmi: BMI is computed in exact real arithmetic, not IEEE doubles, so HealthStatus.WeightBand and HealthStatus.WeightStatus can put a reading one band higher than the code does when its double-rounded BMI falls just under 18.5, 25 or 30 (30.25 kg at 110 cm is 24.999999999999996 in doubles, normal, and exactly 25 in the model, overweight).
- ForumPost.InsertTags, ForumPost.CreatePostTags: new tag ids are consecutive from the next auto-increment value; the values InnoDB consumes on a failed duplicate-entry insert, which leave gaps between real ids, are not modelled.
- HandleMedicalHistory.SplitExtParts: the extension is split as `os.path.splitext` does on Windows (ntpath), so both '\\' and '/' separate path components; on POSIX only '/' would.
- HandleMedicalHistory.PdfText: the OCR fallback renders the same page list as the text layer, so a document whose two readers would see different page counts is not modelled.
- ChatMessage.AddMultipleMessages: the bulk insert query itself is not modelled, so 'Failed to add multiple messages' stands only for the format check and a null or undefined element.

## Findings

| source | as written | input that shows it | evidently intended | confidence | as-written member | corrected member |
|---|---|---|---|---|---|---|
| FrontEnd/src/pages/MedicalHistory/medicalHistoryUtils.ts:40-47 | `new Date('YYYY-MM-DD')` is midnight UTC of the record's day, but it is compared with midnight of the local day | a record dated today, entered in a zone ahead of UTC such as UTC+7 (offset 420 minutes), is refused as a future date | a record dated today is accepted and only later dates are refused | not executed | `MedicalHistoryUtils.AsWrittenRejectsToday` | `MedicalHistoryUtils.TodayAcceptedLaterRejected` |
