/** The company record every page of the application shows. */
module CompanyData {

  /** A company of the dataset; ids are numbers. */
  datatype Company = Company(id: int, name: string, industry: string, location: string, stage: string)
}
