# Birch core, modelled in Dafny

Birch is a Qt/VTK desktop viewer in which users log in, step through
studies of medical images and rate the images. Its core is made of four parts:

- **Active records.** `ActiveRecord` and its subclasses `User`, `Study`,
  `Image` and `Rating`. They are rows of a MySQL database, addressed by
  `id`. They load themselves through generated `SELECT` text and save
  themselves through generated `INSERT`/`UPDATE`/`DELETE` text.
- **Schema cache.** `Database` reads the server's `information_schema`
  once at connect time. It answers which columns a table has, their
  defaults, whether they are nullable, and whether they are foreign keys.
- **Application singleton.** `Application` holds the configuration, the
  database, the class registries, and the active user, study and image.
  Changing the active study saves it as the user's last study.
- **VTK helpers.** An XML reader and writer; the reader of the
  `<Configuration>` file; and the slice and cine-play logic of
  `vtkMedicalImageViewer`.

The model has one Dafny module per component:

| module | file | component |
|---|---|---|
| `Wrappers` | wrappers.dfy | results and options |
| `Variants` | variants.dfy | `vtkVariant` |
| `Text` | text.dfy | decimal text, words, case, the order of `std::map` keys |
| `Sql` | sql.dfy | query text |
| `Database` | database.dfy | the schema cache |
| `Registry` | registry.dfy | the constructor and class-name registries |
| `Records` | records.dfy | `ActiveRecord` |
| `Users`, `Studies`, `Images` | users.dfy, studies.dfy, images.dfy | the record subclasses |
| `XmlReader`, `XmlWriter` | xmlreader.dfy, xmlwriter.dfy | the XML base classes |
| `Configuration` | configuration.dfy | the configuration file reader and `Configuration` |
| `Viewer` | viewer.dfy | the slice logic of the viewer |
| `App` | application.dfy | `Application` |

Objects whose methods change their fields are classes: `Record`, `Database`,
`FileReader`, `FileWriter`, `ConfigurationFileReader`, `Configuration`,
`ImageViewer` and `Application`. Their loops are `while` loops with
invariants, proved against functions that specify them.

External collaborators are not modelled; each becomes a parameter of the
model:

| collaborator | what it becomes |
|---|---|
| MySQL server | `backend`, mapping the writes issued so far and a query text to the rows it returns |
| escaping | `escape`, a string function |
| login | `accepts`, whether the server takes the connection parameters |
| password hash | `hash` |
| XML file | a sequence of parse events, or `None` when the file cannot be opened |

Reads never change the database. A write is the text appended to `writes`.
The C++ exceptions become the `Err` case of a `Result`, and their messages
are kept.

`GetCount` is described as asserting the primary id first, but the code
does not: it fails only when the record has no `id` column. The model
follows the code.

## Model

| member | source | states |
|---|---|---|
| Variants.ToIntOfToString | api/model/Application.cxx:212 | converting a variant to text and back to an integer gives the same integer as converting it directly |
| Text.StreamIntOfIntToString | api/vtk/vtkXMLFileReader.h:156-159 | the integer read back from the decimal text of any integer is that integer |
| Text.WordsOfSpaceJoin | api/vtk/vtkXMLFileReader.h:172-174 | splitting blank-joined words that contain no blanks gives back exactly those words |
| Text.WordsAroundBlank | api/vtk/vtkXMLFileReader.h:172-174 | the words of `x + " " + y` are the words of x followed by the words of y |
| Text.Lower | api/model/ActiveRecord.cxx:206 | lowering keeps the length and lowers each character |
| Text.EqualsIgnoringCaseLower | api/vtk/vtkXMLConfigurationFileReader.cxx:61-62 | two names match ignoring case exactly when their lowered forms are equal |
| Text.SortedKeys | api/model/Database.cxx:107-124 | the keys of a `std::map` in iteration order: strictly ascending, holding every key and only those |
| Text.LessTotal | api/model/Database.cxx:107-124 | two different strings are ordered one way or the other |
| Text.LessTransitive | api/model/Database.cxx:107-124 | the key order is transitive |
| Sql.WhereClause | api/model/ActiveRecord.cxx:75-78 | the WHERE clause is empty exactly when there are no conditions, and otherwise starts with " WHERE " |
| Sql.SetList | api/model/ActiveRecord.cxx:117-126 | the SET list is empty exactly when there are no assignments |
| Database.Database.constructor | api/model/Database.cxx:33-36 | a new database has no name, no connection, no cached columns and no writes |
| Database.Database.Execute | api/model/ActiveRecord.cxx:148-150 | a write is recorded only while connected |
| Database.Database.Connect | api/model/Database.cxx:39-55 | the name is stored, the connection succeeds exactly when the server accepts it, and the schema is then read into the cache; a failed connection keeps the cache |
| Database.Database.ReadInformationSchema | api/model/Database.cxx:58-104 | the cache becomes the scan of the information-schema rows over the old cache |
| Database.ScanStep | api/model/Database.cxx:76-98 | one turn of the row loop is one step of the scan function |
| Database.ReadAttributes | api/model/Database.cxx:89-92 | the attribute map of a row holds its fields from the third on |
| Database.FieldMapKeys | api/model/Database.cxx:89-92 | a name is a key of the attribute map exactly when some field has it |
| Database.FieldMapValues | api/model/Database.cxx:89-92 | each name maps to the value of its first field (`std::map::insert` keeps the first) |
| Database.ScanKeepsOld | api/model/Database.cxx:79-86 | scanning never replaces a table already in the cache |
| Database.ReadSchemaKeepsOld | api/model/Database.cxx:58-104 | reading the schema keeps every table already in the cache |
| Database.ScanGrouped | api/model/Database.cxx:76-103 | over rows grouped by table, the scan has inserted every finished table with all of its columns |
| Database.ReadSchemaGrouped | api/model/Database.cxx:58-104 | over rows grouped by table, the cache becomes the old cache extended by each new table's columns |
| Database.ColumnsOfKeys | api/model/Database.cxx:89-92 | a table's columns are exactly the column names of its rows |
| Database.ColumnsOfValues | api/model/Database.cxx:89-92 | a column's attributes are those of its first row |
| Database.ColumnNamesAfterRead | api/model/Database.cxx:58-124 | after reading the schema, a new table's column names are strictly ascending and are exactly the columns of its rows |
| Database.DefaultAfterRead | api/model/Database.cxx:58-150 | after reading the schema, a column's default is the `column_default` field of its first row |
| Database.GetColumnNames | api/model/Database.cxx:107-124 | the names succeed exactly for a cached table and hold exactly its columns |
| Database.ColumnNamesAscending | api/model/Database.cxx:107-124 | the names come in ascending order, one per column |
| Database.GetColumnDefault | api/model/Database.cxx:127-150 | the default succeeds exactly when the table, the column and its `column_default` are cached, and is that value |
| Database.IsColumnNullable | api/model/Database.cxx:153-176 | true exactly when `is_nullable` is "YES", for a cached column |
| Database.IsColumnForeignKey | api/model/Database.cxx:179-201 | true exactly when the name ends in "_id", for a cached column |
| Registry.RegistriesHoldRecordClasses | api/model/Application.cxx:39-47 | both registries hold exactly Image, Rating, Study and User; each constructor builds its own class; each class name maps to that class's type-id name |
| Registry.Create | api/model/Application.h:105-118 | creation succeeds exactly for a registered class name and builds that class |
| Registry.CreateByName | api/model/Application.h:105-118 | creating a class by its own name gives that class |
| Registry.FirstWithValue | api/model/Application.cxx:119-123 | the search finds a key whose value is the mangled name, and fails exactly when there is none |
| Registry.GetUnmangledClassName | api/model/Application.cxx:117-125 | the name found is registered under the mangled name; the call fails exactly when no class has that mangled name |
| Registry.TypeIdNamesDistinct | api/model/Application.cxx:40-47 | a type-id name identifies exactly one registered class |
| Registry.UnmangleTypeIdName | api/model/ActiveRecord.h:99 | unmangling a class's type-id name gives its own name |
| Registry.UnmangleInAnyOrder | api/model/Application.cxx:117-125 | the result does not depend on the order the registry is searched in |
| Records.InitialValues | api/model/ActiveRecord.cxx:43-62 | the initial values exist exactly when every column has a default; they hold one entry per column, equal to its default |
| Records.InitialValuesMissingDefault | api/model/ActiveRecord.cxx:54-59 | a column without a default makes the initial values fail |
| Records.CollectDefaults | api/model/ActiveRecord.cxx:49-59 | the loop over the columns succeeds exactly when the initial values exist, and then produces them |
| Records.DefaultsLoop | api/model/ActiveRecord.cxx:54-59 | on success the map holds the defaults of the columns visited; on failure it names a column that has no default |
| Records.RowValuesContents | api/model/ActiveRecord.cxx:85-103 | a loaded row's values hold every field except the two timestamps, each at the value of its first field |
| Records.ReadRow | api/model/ActiveRecord.cxx:95-100 | the field loop over a row produces the row's values |
| Records.StoredValue | api/model/User.cxx:22-32 | a user's non-null password is stored hashed; every other value is stored as given |
| Records.Entries | api/model/ActiveRecord.cxx:75-78 | the entries follow the keys one by one, each with its value |
| Records.Conditions | api/model/ActiveRecord.cxx:75-78 | the conditions list each key of the map once, with its value, in ascending key order |
| Records.EntriesOfSortedKeys | api/model/ActiveRecord.cxx:75-78 | listing a map along its sorted keys gives every entry once, in ascending order |
| Records.ConditionsOfOne | api/model/ActiveRecord.h:70-75 | a one-key map gives one condition |
| Records.ConditionsOfTwo | api/model/ActiveRecord.cxx:75-78 | a two-key map gives its conditions smaller key first |
| Records.WhereClauseOfTwo | api/model/ActiveRecord.cxx:75-78 | two conditions are joined by " AND " after " WHERE " |
| Records.KeyTextIsLoadText | api/model/ActiveRecord.h:66-75 | loading by one key issues the query of a one-entry map |
| Records.WhereLoop | api/model/ActiveRecord.cxx:75-78 | the loop produces the SELECT text with the WHERE clause of the conditions |
| Records.SelectText | api/model/ActiveRecord.cxx:75-78 | the query text is the load text of the map |
| Records.AssignmentsOfColumns | api/model/ActiveRecord.cxx:117-126 | each assignment sets a non-id column to its value, and every non-id column gets one |
| Records.AssignmentsOfSorted | api/model/ActiveRecord.cxx:117-126 | the assignments follow ascending column order |
| Records.SaveAssignments | api/model/ActiveRecord.cxx:117-126 | the SET list assigns every column except `id`, each to its stored value, in ascending column order |
| Records.SetListLoop | api/model/ActiveRecord.cxx:117-126 | the loop produces the SET list text, and `first` stays set exactly when nothing was assigned |
| Records.BuildSetList | api/model/ActiveRecord.cxx:117-126 | the SET text is that of the record's assignments |
| Records.SaveStatement | api/model/ActiveRecord.cxx:129-146 | a record without a usable primary id is inserted with a NULL `create_timestamp` added; otherwise it is updated by its id |
| Records.SaveText | api/model/ActiveRecord.cxx:129-146 | the text built is the rendering of the save statement |
| Records.InsertTail | api/model/ActiveRecord.cxx:131-137 | the insert's SET list is the SET list followed by `create_timestamp = NULL` |
| Records.SaveSql | api/model/ActiveRecord.cxx:117-146 | the save text renders the statement for the record's values |
| Records.WriteSave | api/model/ActiveRecord.cxx:148-150 | saving issues exactly that text, and only while connected |
| Records.PreparedAfterLoad | api/model/ActiveRecord.h:66-69 | a record that loaded without failing answers with the values of the row read, or with its defaults when no row was read |
| Records.NewLoaded | api/model/ActiveRecord.h:110-111 | a fresh record of the type, loaded by the id; this fails exactly when the load reads more than one row |
| Records.AllLoadedEach | api/model/ActiveRecord.h:107-113 | record j of the list was loaded by the id of row j |
| Records.LoadRecords | api/model/ActiveRecord.h:107-113 | one fresh record per row, in order, each loaded by its row's id; the loop stops at the first load that fails |
| Records.UnmangledName | api/model/ActiveRecord.h:99 | the class name of a record type always unmangles |
| Records.GetAll | api/model/ActiveRecord.h:95-114 | the list keeps its old records and gains one loaded record per row of `SELECT id FROM` the type's table; it stops at a failing load |
| Records.Record.constructor | api/model/ActiveRecord.cxx:26-30 | a new record is uninitialized and has no values |
| Records.Record.Initialize | api/model/ActiveRecord.cxx:43-62 | the values become the column defaults and the record is initialized; it fails exactly when a column has no default |
| Records.Record.ColumnNameExists | api/model/ActiveRecord.cxx:33-40 | true exactly when the column is among the record's values; it fails only when initializing fails |
| Records.Record.Get | api/model/ActiveRecord.cxx:186-198 | the value of an existing column; it fails exactly when the column is missing or initializing fails |
| Records.Record.SetVariant | api/model/ActiveRecord.cxx:230-242 | only the named column changes, to its stored value; it fails exactly when the column is missing |
| Records.Record.Set | api/model/ActiveRecord.h:169-172 | as SetVariant, for a non-null value |
| Records.Record.SetNull | api/model/ActiveRecord.h:169-172 | only the named column changes, to NULL |
| Records.Record.AssertPrimaryId | api/model/ActiveRecord.h:202-207 | it succeeds exactly when the record has a non-null, non-zero `id` |
| Records.Record.Load | api/model/ActiveRecord.cxx:65-108 | it fails exactly when more than one row matches; otherwise it reports whether one row was found, and the values become that row's (none when none was found) |
| Records.Record.LoadKey | api/model/ActiveRecord.h:66-69 | as Load, for one key and value |
| Records.Record.Save | api/model/ActiveRecord.cxx:111-151 | it issues the insert or update statement of the old values; it fails, writing nothing, when the record has no `id` column |
| Records.Record.Remove | api/model/ActiveRecord.cxx:154-165 | it issues a DELETE by id exactly when the primary id is set, and otherwise fails, writing nothing |
| Records.Record.GetCount | api/model/ActiveRecord.cxx:168-183 | the count of related records is the first value of the COUNT query's first row, or 0 for no row |
| Records.Record.GetRecord | api/model/ActiveRecord.cxx:201-227 | it follows the foreign key (the lowered table name plus "_id" by default): NULL gives no record; a set key gives a fresh record of that table loaded by the key; it fails for a missing column, an unknown table or a failing load |
| Records.Record.GetList | api/model/ActiveRecord.h:120-142 | one loaded record per row of records whose foreign key is this record's id; it fails without an `id` column |
| Users.StoredPasswordMatches | api/model/User.cxx:22-47 | a password set on a user is afterwards recognised by IsPassword |
| Users.OnlyPasswordHashed | api/model/User.cxx:22-32 | any column other than the password, and a NULL password, is stored unchanged |
| Users.ResetPassword | api/model/User.cxx:35-38 | the password becomes the hash of the default password "password", which then matches |
| Users.IsPassword | api/model/User.cxx:41-47 | true exactly when the stored password is the hash of the one given |
| Users.SetThenCheck | api/model/User.cxx:22-47 | after setting a password, IsPassword accepts it |
| Studies.UidsOf | api/model/Study.cxx:192-202 | one uid per row, in order |
| Studies.GetUIDList | api/model/Study.cxx:192-202 | the list holds the uids of all studies, in the order the server returns them |
| Studies.LastIndexOf | api/model/Study.cxx:119-134 | the position of the last occurrence, or -1 exactly when the uid is absent |
| Studies.FirstIndexOf | api/model/Study.cxx:161-176 | the position of the first occurrence, or -1 exactly when the uid is absent |
| Studies.FindNext | api/model/Study.cxx:115-136 | the loop finds the uid after the current one, wrapping to the first |
| Studies.FindPrevious | api/model/Study.cxx:157-178 | the loop finds the uid before the current one, wrapping to the last |
| Studies.DistinctIndex | api/model/Study.cxx:119-176 | in a list without repeats, the first and last occurrence of an element are its position |
| Studies.NeighboursInverse | api/model/Study.cxx:108-183 | in a list without repeats, the previous study of the next is the current one, and the next of the previous is too |
| Studies.PredecessorOfSuccessor | api/model/Study.cxx:108-183 | the previous study of the next study is the current one |
| Studies.SuccessorOfPredecessor | api/model/Study.cxx:108-183 | the next study of the previous study is the current one |
| Studies.SingleUid | api/model/Study.cxx:108-183 | with a single study, next and previous are that study |
| Studies.NeighboursInList | api/model/Study.cxx:108-183 | for a listed uid, next and previous both succeed and are listed uids |
| Studies.GetNeighbour | api/model/Study.cxx:108-183 | the neighbour is a fresh study loaded by the next (or previous) uid; it fails exactly when the study has no uid, the list is empty, the uid is not listed, the neighbour's uid is empty, or loading the neighbour reads more than one row |
| Studies.Step | api/model/Study.cxx:144-147 | Next/Previous reload the study by the neighbour's id; this fails exactly when there is no neighbour id or its load fails |
| Studies.ReloadAs | api/model/Study.cxx:144-147 | the study is reloaded by the other study's id |
| Studies.AllRatedTrue | api/model/Study.cxx:216-220 | the study is rated exactly when every image is rated |
| Studies.AllRatedFalse | api/model/Study.cxx:216-220 | the study is unrated exactly when some image is unrated and every earlier image is rated |
| Studies.ImagesPrepared | api/model/Study.cxx:213-215 | one answer per image row, each that of the image loaded by its id |
| Studies.ImageVerdicts | api/model/Study.cxx:216-220 | one verdict per image, each the image's own verdict for the user |
| Studies.StudyRatedIffImagesRated | api/model/Study.cxx:205-223 | a study is rated by a user exactly when every one of its images is; a study with no images is rated; no id or no user fails |
| Studies.RateImage | api/model/Study.cxx:218-219 | one image's check gives the image's verdict and leaves the records' answers unchanged |
| Studies.RateAll | api/model/Study.cxx:216-220 | the loop over the images gives the combined verdict |
| Studies.ListedPrepared | api/model/Study.cxx:213-215 | each listed image answers like the image loaded by its row's id |
| Studies.ListImages | api/model/Study.cxx:213-215 | the study's images are listed exactly when each of their loads succeeds |
| Studies.StudyIsRatedBy | api/model/Study.cxx:205-223 | `Study::IsRatedBy` gives the study's verdict |
| Images.SettledKeepsPrepared | api/model/ActiveRecord.cxx:186-198 | a record whose operations first initialize it keeps answering with the same values |
| Images.StudyKey | api/model/ActiveRecord.cxx:203-208 | the default foreign key of Study is "study_id" |
| Images.GetFileName | api/model/Image.cxx:28-44 | the path is the image directory, the study's uid, "Image" and the image id with ".jpg"; it fails exactly when the id, the study key, the study's load or its uid is missing |
| Images.RatingConditionsOrder | api/model/Image.cxx:54-56 | the rating lookup selects on the image first and the user second |
| Images.RatingTextIsLoadText | api/model/Image.cxx:54-58 | the rating query is the Load of those two conditions |
| Images.VerdictCases | api/model/Image.cxx:47-62 | no id or no user fails; no rating row is unrated; two rows fail; one row is rated exactly when its rating is set |
| Images.IsRatedBy | api/model/Image.cxx:47-62 | the answer is the verdict, and the image and user keep their values |
| XmlReader.GetNodeTypeName | api/vtk/vtkXMLFileReader.h:63-84 | "Unknown" exactly for a type outside libxml's reader types |
| XmlReader.NodeTypeNamesDistinct | api/vtk/vtkXMLFileReader.h:63-84 | different node types have different names |
| XmlReader.ClearedIsNone | api/vtk/vtkXMLFileReader.h:53-62 | a cleared node has type None, no name, no content and depth 0 |
| XmlReader.FileReader.constructor | api/vtk/vtkXMLFileReader.cxx:27-33 | a new reader has no file open and a cleared node |
| XmlReader.FileReader.CreateReader | api/vtk/vtkXMLFileReader.cxx:79-87 | opening succeeds exactly when the file exists, and then starts at the beginning with a cleared node |
| XmlReader.FileReader.FreeReader | api/vtk/vtkXMLFileReader.cxx:134-143 | freeing closes the file, and fails exactly when none was open |
| XmlReader.FileReader.ParseNode | api/vtk/vtkXMLFileReader.cxx:90-118 | with no file it fails; at the end it returns false and clears the node; a parse error fails; otherwise it moves to the next node |
| XmlReader.FileReader.ReadValue | api/vtk/vtkXMLFileReader.cxx:146-160 | the node's text, or the "Failed to read string" error when there is none |
| XmlReader.FileReader.ReadInt | api/vtk/vtkXMLFileReader.h:146-162 | the integer the node's text starts with, or the "Failed to read int" error |
| XmlReader.TupleCount | api/vtk/vtkXMLFileReader.h:174-186 | the number of values read is the smaller of the word count and the length |
| XmlReader.FileReader.ReadTuple | api/vtk/vtkXMLFileReader.h:165-193 | slot i becomes the integer of word i for the first values read, and later slots are unchanged; without text it fails and changes nothing |
| XmlWriter.Decimals | api/vtk/vtkXMLFileWriter.h:110 | one decimal text per value, in order |
| XmlWriter.TupleTextEnds | api/vtk/vtkXMLFileWriter.h:105-111 | the text of a tuple is empty for no values, and otherwise neither starts nor ends with a blank |
| XmlWriter.TupleTextWords | api/vtk/vtkXMLFileWriter.h:105-111 | the words of a tuple's text are its values' decimal texts |
| XmlWriter.TupleRoundTrip | api/vtk/vtkXMLFileWriter.h:97-115 | reading back a written tuple gives exactly its values, one per slot |
| XmlWriter.TupleLoop | api/vtk/vtkXMLFileWriter.h:105-111 | the loop produces the values' decimal texts joined by single blanks |
| XmlWriter.FileWriter.constructor | api/vtk/vtkXMLFileWriter.cxx:17-21 | nothing has been written |
| XmlWriter.FileWriter.StartElement | api/vtk/vtkXMLFileWriter.cxx:102-106 | a start tag is written |
| XmlWriter.FileWriter.EndElement | api/vtk/vtkXMLFileWriter.cxx:109-113 | an end tag is written |
| XmlWriter.FileWriter.WriteAttribute | api/vtk/vtkXMLFileWriter.cxx:116-120 | an attribute is written |
| XmlWriter.FileWriter.WriteIntAttribute | api/vtk/vtkXMLFileWriter.h:78-83 | an attribute holding the decimal text of the value is written |
| XmlWriter.FileWriter.WriteValue | api/vtk/vtkXMLFileWriter.cxx:123-130 | an element typed "string" holding the text is written |
| XmlWriter.FileWriter.WriteIntValue | api/vtk/vtkXMLFileWriter.h:86-94 | an element holding the decimal text is written, typed "int" when asked |
| XmlWriter.FileWriter.WriteTuple | api/vtk/vtkXMLFileWriter.h:97-115 | an element typed "int" with the length is written, holding the first `length` values as blank-separated decimals |
| Configuration.FindFrom | api/vtk/vtkXMLConfigurationFileReader.cxx:60-67 | the search stops just after the first `Configuration` element; it fails with "File does not contain a Configuration element." exactly when there is none, and otherwise only on a parse error |
| Configuration.CategoryFrom | api/vtk/vtkXMLConfigurationFileReader.cxx:84-95 | a category keeps the entries it already has, and ends at its closing tag or at the end of the file |
| Configuration.CategoryHoldsElements | api/vtk/vtkXMLConfigurationFileReader.cxx:90-94 | every element inside a category has a key in it |
| Configuration.CategoryKeysFromElements | api/vtk/vtkXMLConfigurationFileReader.cxx:90-94 | every new key of a category comes from an element inside it, holding that element's text |
| Configuration.BodyFrom | api/vtk/vtkXMLConfigurationFileReader.cxx:72-101 | reading the body never drops or replaces a category already read |
| Configuration.BodyCategoriesFromScans | api/vtk/vtkXMLConfigurationFileReader.cxx:76-99 | every category the body adds was scanned from a category element the body read, is stored under the name of the end element that closed that scan, and holds exactly that scan's keys |
| Configuration.BodyStoresEveryScan | api/vtk/vtkXMLConfigurationFileReader.cxx:76-99 | when the body is read without error, every category element it reads is scanned to a closing end element one level down, whose name is a stored category |
| Configuration.ReadFile | api/vtk/vtkXMLConfigurationFileReader.cxx:49-110 | a missing file fails with "No file opened." and changes nothing; otherwise it fails exactly when parsing fails, and earlier categories are kept |
| Configuration.NoConfigurationFails | api/vtk/vtkXMLConfigurationFileReader.cxx:64-67 | a file without a Configuration element fails and changes nothing |
| Configuration.SampleFileSettings | api/vtk/vtkXMLConfigurationFileReader.cxx:49-110 | a small file with `<Path><ImageData>/data</ImageData></Path>` reads into exactly that setting |
| Configuration.ConfigurationFileReader.constructor | api/vtk/vtkXMLConfigurationFileReader.cxx:49-57 | a new reader has no settings and no open file |
| Configuration.ConfigurationFileReader.FindConfiguration | api/vtk/vtkXMLConfigurationFileReader.cxx:60-67 | the loop leaves the reader where the search function says |
| Configuration.ConfigurationFileReader.ReadCategory | api/vtk/vtkXMLConfigurationFileReader.cxx:81-95 | the loop reads the category the category function describes |
| Configuration.ConfigurationFileReader.ReadBody | api/vtk/vtkXMLConfigurationFileReader.cxx:71-101 | the loop reads the settings the body function describes |
| Configuration.ConfigurationFileReader.Update | api/vtk/vtkXMLConfigurationFileReader.cxx:49-110 | the outcome and the settings are those of reading the file, and the file is closed afterwards, whether or not reading failed |
| Configuration.Configuration.constructor | api/model/Configuration.cxx:23-26 | a new configuration has no settings |
| Configuration.Configuration.Read | api/model/Configuration.cxx:29-43 | the settings are taken from the reader only when reading succeeds |
| Configuration.Configuration.GetValue | api/model/Configuration.cxx:46-51 | the stored value, or "" when the category or the key is absent |
| Viewer.Clamp | api/vtk/vtkMedicalImageViewer.cxx:556-567 | the clamped slice lies in a non-empty range, equals a slice already in it, and is otherwise an end of the range |
| Viewer.MidpointInRange | api/vtk/vtkMedicalImageViewer.cxx:600-603 | the middle slice lies in the range and is half the sum, truncated toward zero |
| Viewer.Pinned | api/vtk/vtkMedicalImageViewer.cxx:629-645 | the display extent has six bounds |
| Viewer.ShownIsClamped | api/vtk/vtkMedicalImageViewer.cxx:554-579 | with an input, the slice shown is the requested one clamped to the range |
| Viewer.Ascending | api/vtk/vtkMedicalImageViewer.cxx:798-805 | one play event per slice, in ascending order |
| Viewer.PlayVisitsInOrder | api/vtk/vtkMedicalImageViewer.cxx:794-806 | from a slice in range, cine play shows every slice up to the last, in order, and ends on the last |
| Viewer.ImageViewer.constructor | api/vtk/vtkMedicalImageViewer.cxx:61-113 | slice 0 of no input, viewed along XY, with every last slice 0 and cine stopped |
| Viewer.ImageViewer.SliceBounds | api/vtk/vtkMedicalImageViewer.cxx:507-551 | the slice range is the input's extent along the orientation, and 0..0 without an input |
| Viewer.ImageViewer.GetImageDimensionality | api/vtk/vtkMedicalImageViewer.cxx:476-485 | 0 without an input, 2 for a single z slice, and 3 otherwise |
| Viewer.ImageViewer.UpdateDisplayExtent | api/vtk/vtkMedicalImageViewer.cxx:610-663 | an out-of-range slice is moved into the range, and the actor then displays the current slice |
| Viewer.ImageViewer.SetSlice | api/vtk/vtkMedicalImageViewer.cxx:554-579 | the slice becomes the clamped request; when it changes, the old slice is remembered for the orientation and the display follows |
| Viewer.ImageViewer.SetViewOrientation | api/vtk/vtkMedicalImageViewer.cxx:582-607 | a new valid orientation shows the middle slice of its range; an invalid or unchanged orientation changes nothing |
| Viewer.ImageViewer.InitializeSlices | api/vtk/vtkMedicalImageViewer.cxx:443-449 | each last slice becomes the top of its axis, and the slice becomes the top of the current axis |
| Viewer.ImageViewer.CineStop | api/vtk/vtkMedicalImageViewer.cxx:787-791 | cine stops and a stop event is invoked |
| Viewer.ImageViewer.CineRewind | api/vtk/vtkMedicalImageViewer.cxx:809-812 | the slice returns to the bottom of the range; as for `SetSlice`, nothing changes when it is already there, otherwise the old slice is remembered for the orientation, the modification time advances and the slice is displayed |
| Viewer.ImageViewer.CinePlay | api/vtk/vtkMedicalImageViewer.cxx:794-806 | play shows the slices from the current one up, with one play event each, then stops with a stop event; from a slice in range it visits every slice to the last, in order |
| Viewer.ImageViewer.PlayLoop | api/vtk/vtkMedicalImageViewer.cxx:798-805 | the loop's events and final slice are those of the play trail |
| Viewer.ImageViewer.PlayStep | api/vtk/vtkMedicalImageViewer.cxx:800-804 | one turn shows a slice and adds its play event, moving one step along the trail |
| App.DefaultPortValue | api/model/Application.cxx:155-157 | the default port text reads as 3306 |
| App.ConnectionParametersOf | api/model/Application.cxx:139-157 | no connection without a database name or user; otherwise the configured values, with host "localhost" and port 3306 by default |
| App.StoredUser | api/model/Application.cxx:210-214 | the user's `study_id` becomes the study's id, or NULL for no study, and the other columns are kept |
| App.LastStudy | api/model/Application.cxx:191 | the user's last study: none when `study_id` is NULL, otherwise a fresh study loaded by that id; it succeeds exactly when the user has a `study_id` column and a set id loads |
| App.StoreStudy | api/model/Application.cxx:210-215 | the user is saved with the new `study_id`; it fails exactly when the study's id or the user's `study_id` column is missing |
| App.Application.constructor | api/model/Application.cxx:32-48 | a new application has no active user, study or image |
| App.Application.SetActiveImage | api/model/Application.cxx:221-230 | the image becomes active, and the modification time advances only when it changed |
| App.Application.SetActiveStudy | api/model/Application.cxx:200-218 | a new study becomes active, clears the active image and, with an active user, is saved as the user's study; the same study changes nothing |
| App.Application.SetActiveUser | api/model/Application.cxx:180-197 | a new user becomes active, and their last study becomes the active study; it succeeds exactly when that study loads and, if the active study changes, the user's `study_id` is saved, in which case the user's values and the database's writes are those of that save; when the study does not change nothing is written; a null user changes nothing else; the modification time advances when a new non-null user is set successfully, and stays for a null or unchanged user |
| App.Application.FollowLastStudy | api/model/Application.cxx:188-194 | the active user's last study becomes the active study, with the same outcome, values and writes as stated for `SetActiveUser`, and the modification time advances on success |
| App.Application.ResetApplication | api/model/Application.cxx:172-177 | no user, study or image stays active, and nothing is written |
| App.Application.ReadConfiguration | api/model/Application.cxx:128-134 | a missing file fails and keeps the settings; otherwise the settings are replaced exactly when reading succeeds |
| App.Application.ReadParameters | api/model/Application.cxx:139-155 | the connection parameters derived from the configuration |
| App.Application.ConnectToDatabase | api/model/Application.cxx:137-158 | without a name or user it fails and leaves the database alone; otherwise it connects with the derived parameters |

## Left out

- The MySQL server, libxml2 and the file system are parameters (`backend`, `escape`, `accepts`, parse-event sequences); their own behaviour is not modelled.
- `hashString` (the password hash) is the parameter `hash`; only its use is modelled.
- Rendering, cameras, window/level, interaction styles and floating-point geometry of `vtkMedicalImageViewer` are not modelled; only the integer slice, orientation, display extent and cine logic are.
- `CineLoop`: it loops until an observer of the play event calls `CineStop`, so it never ends on its own. Observers are not modelled, and neither is `CineLoop`.
- Viewer.ImageViewer.CinePlay: the source loop also stops when an observer sets the state to STOP during a play event; with no observers modelled, the loop runs to the top of the range.
- Reference counting (`Register`/`UnRegister`, `Delete`, smart pointers) and `Modified` beyond a counter are not modelled.
- The `Application` singleton, `GetInstance`, the Opal service (`SetupOpalService`) and the Qt interface are not part of this model.
- The `Session` classes, the session file reader and writer, `Study::UpdateData`, `Study::GetIdentifierList` and the `Rating` and `AdminUser` extras are not part of this model.
- `WriteAttribute<T>` keeps a pointer into a temporary string (`ToString().c_str()`), which dangles before it is used; the model writes the text the code evidently means.
- The XML templates are modelled for `int` only (the only numeric type the core writes and reads); other types are not modelled.
- Integers are unbounded: 32-bit overflow of `int` and `vtkIdType` is not modelled.
- Studies.GetUIDList: the order of the uids is whatever the server returns for the query; the model takes it from `backend`, so the model does not say how it is ordered.
- Configuration.ConfigurationFileReader.Update: the source rethrows the caught exception by value (`throw e`), which slices it to a plain `std::exception`; the model reproduces this, so the error it returns carries the text `std::exception` rather than the original message.
- Configuration.BodyFrom, Configuration.ConfigurationFileReader.ReadBody: at end of file inside a category the source builds a `std::string` from a NULL node name, which throws; these members, where the category is stored, treat it as an error (`CategoryFrom` itself ends with the cleared node).
- Images.GetFileName: a NULL study key leaves the source dereferencing a null study; the model returns an error.
- Database.GetColumnDefault: `find(...)->second` on a missing `column_default` is undefined in the source; the model returns an error (the same holds for `is_nullable`).
- App.Application.SetActiveUser: when the call fails, the contract says which user became active, but not what state the user record or the study was left in before the failure (the source reports the failure as an exception thrown part-way through).
- App.Application.constructor: the source calls `ResetApplication()` (api/model/Application.cxx:37) before the raw pointers `ActiveUser`, `ActiveStudy` and `ActiveImage` (api/model/Application.h:138-140) are given a value, so `SetActiveUser(NULL)` compares against, and may `UnRegister` through, an indeterminate pointer. That is undefined behaviour; the model starts from null pointers, as the authors evidently intended.
- App.Application.SetActiveStudy: the failure of the user's save is given as the condition under which it happens; the partial state left by a failed save is not described beyond the active study and image.
- Records.Record.GetCount: following the code, it does not check the primary id; it fails only when `id` is missing.
