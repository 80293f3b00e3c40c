TestResult.DisplayName,TestResult.Outcome,TestResult.Duration,TestResult.ResourceCount,RandomSeed
Numeric.ParseInt32NegativeOverflowBeforeJunk (correctness),Passed,00:00:00.3860682,1077681,0
Numeric.ParseInt32OverflowBeforeJunk (correctness),Passed,00:00:00.1468936,83935,0
